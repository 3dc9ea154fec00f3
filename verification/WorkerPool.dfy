/** `mapConcurrent`: a few workers share one index and one array of results.  A worker runs without
    interruption from one `await` to the next, so the answers of the mapper, in any order, are the steps. */
module WorkerPool {
  import opened Options

  /** How the promise of one mapper call ends. */
  datatype Reply<R> = Value(result: R) | Failure(error: string)

  datatype Worker = Awaiting(index: nat) | Returned | Threw(index: nat, error: string)

  /** `calls` lists the indices handed to the mapper, `answers` what came back for them; `rejection` is the
      reason with which `Promise.all` is rejected. */
  datatype Pool<R> = Pool(
    size: nat,
    nextIndex: nat,
    workers: seq<Worker>,
    results: seq<Option<R>>,
    calls: seq<nat>,
    answers: map<nat, Reply<R>>,
    rejection: Option<string>)

  datatype Event<R> = Answered(worker: nat, reply: Reply<R>)

  // ---------- the steps ----------

  function WorkerCount(size: nat, limit: int): (k: nat)
    ensures k >= 1
    ensures k <= limit || k == 1
    ensures k <= size || k == 1
  {
    var least := if limit < size then limit else size;
    if least > 1 then least else 1
  }

  /** The head of the worker's loop: take the next index, or return. */
  function TakeNext<R>(p: Pool<R>, w: nat): Pool<R>
    requires w < |p.workers|
  {
    if p.nextIndex < p.size then
      p.(nextIndex := p.nextIndex + 1, calls := p.calls + [p.nextIndex], workers := p.workers[w := Awaiting(p.nextIndex)])
    else
      p.(workers := p.workers[w := Returned])
  }

  function Spawn<R>(p: Pool<R>): Pool<R> {
    TakeNext(p.(workers := p.workers + [Returned]), |p.workers|)
  }

  function Started<R>(size: nat, workers: nat): Pool<R> {
    if workers == 0 then Pool(size, 0, [], seq(size, _ => None), [], map[], None)
    else Spawn(Started(size, workers - 1))
  }

  function Step<R>(p: Pool<R>, e: Event<R>): Pool<R> {
    var w := e.worker;
    if w < |p.workers| && p.workers[w].Awaiting? && p.workers[w].index < |p.results| then
      var index := p.workers[w].index;
      var p1 := p.(answers := p.answers[index := e.reply]);
      match e.reply
      case Value(result) => TakeNext(p1.(results := p.results[index := Some(result)]), w)
      case Failure(error) =>
        p1.(workers := p.workers[w := Threw(index, error)],
            rejection := if p.rejection.None? then Some(error) else p.rejection)
    else p
  }

  function Run<R>(size: nat, limit: int, es: seq<Event<R>>): Pool<R> {
    if es == [] then Started(size, WorkerCount(size, limit))
    else Step(Run(size, limit, es[..|es| - 1]), es[|es| - 1])
  }

  // ---------- the invariant ----------

  ghost predicate Awaited<R>(p: Pool<R>, i: nat) {
    exists w :: 0 <= w < |p.workers| && p.workers[w] == Awaiting(i)
  }

  ghost predicate ThrewOn<R>(p: Pool<R>, i: nat, error: string) {
    exists w :: 0 <= w < |p.workers| && p.workers[w] == Threw(i, error)
  }

  ghost predicate InOrder<R>(p: Pool<R>) {
    && p.nextIndex == |p.calls| <= p.size
    && forall k :: 0 <= k < |p.calls| ==> p.calls[k] == k
  }

  /** Each call that is out belongs to one worker; a worker returns when the indices have run out. */
  ghost predicate Accounted<R>(p: Pool<R>) {
    && (forall w :: 0 <= w < |p.workers| && p.workers[w].Awaiting? ==> p.workers[w].index < p.nextIndex)
    && (forall w, v :: 0 <= w < v < |p.workers| && p.workers[w].Awaiting? ==> p.workers[w] != p.workers[v])
    && (forall w :: 0 <= w < |p.workers| && p.workers[w].Returned? ==> p.nextIndex == p.size)
    && (forall i: nat :: i in p.answers <==> i < p.nextIndex && !Awaited(p, i))
  }

  ghost predicate Stored<R>(p: Pool<R>) {
    && |p.results| == p.size
    && (forall i :: 0 <= i < p.size ==>
          p.results[i] == if i in p.answers && p.answers[i].Value? then Some(p.answers[i].result) else None)
  }

  /** The reason of the rejection is the error of a worker that threw; without one none did. */
  ghost predicate Rejection<R>(p: Pool<R>) {
    && (p.rejection.None? <==> forall w :: 0 <= w < |p.workers| ==> !p.workers[w].Threw?)
    && (p.rejection.Some? ==> exists w :: 0 <= w < |p.workers| && p.workers[w].Threw? && p.workers[w].error == p.rejection.value)
  }

  ghost predicate FailuresKept<R>(p: Pool<R>) {
    && (forall i :: i in p.answers && p.answers[i].Failure? ==> ThrewOn(p, i, p.answers[i].error))
    && (forall w :: 0 <= w < |p.workers| && p.workers[w].Threw? ==>
          p.workers[w].index in p.answers && p.answers[p.workers[w].index] == Failure(p.workers[w].error))
    && Rejection(p)
  }

  ghost predicate Inv<R>(p: Pool<R>) {
    InOrder(p) && Accounted(p) && Stored(p) && FailuresKept(p)
  }

  lemma {:induction false} SpawnKeeps<R>(p: Pool<R>)
    requires Inv(p) && p.answers == map[] && p.rejection.None?
    ensures Inv(Spawn(p)) && Spawn(p).answers == map[] && Spawn(p).rejection.None?
  {
    var p1 := Spawn(p);
    forall i: nat ensures Awaited(p1, i) <==> Awaited(p, i) || (p.nextIndex < p.size && i == p.nextIndex) {
      if Awaited(p, i) {
        var w :| 0 <= w < |p.workers| && p.workers[w] == Awaiting(i);
        assert p1.workers[w] == Awaiting(i);
      }
      if p.nextIndex < p.size {
        assert p1.workers[|p.workers|] == Awaiting(p.nextIndex);
      }
    }
  }

  lemma {:induction false} StartedInv<R>(size: nat, workers: nat)
    ensures var p := Started<R>(size, workers);
            Inv(p) && p.answers == map[] && p.rejection.None? && |p.workers| == workers && p.size == size
  {
    if workers > 0 {
      StartedInv<R>(size, workers - 1);
      SpawnKeeps(Started<R>(size, workers - 1));
    }
  }

  lemma {:induction false} StepKeepsOrder<R>(p: Pool<R>, e: Event<R>)
    requires InOrder(p)
    ensures InOrder(Step(p, e))
  {
  }

  lemma {:induction false} StepKeepsAccount<R>(p: Pool<R>, e: Event<R>)
    requires Inv(p)
    ensures Accounted(Step(p, e))
  {
    hide Stored, FailuresKept, ThrewOn;
    var p1, w := Step(p, e), e.worker;
    if w < |p.workers| && p.workers[w].Awaiting? && p.workers[w].index < |p.results| {
      var index := p.workers[w].index;
      assert !Awaited(p1, index) by {
        forall v | 0 <= v < |p1.workers| ensures p1.workers[v] != Awaiting(index) {
          if v != w {
            assert p1.workers[v] == p.workers[v] != p.workers[w];
          }
        }
      }
      forall i: nat | i != index
        ensures Awaited(p1, i) <==> Awaited(p, i) || (p1.workers[w] == Awaiting(i))
      {
        if Awaited(p, i) {
          var v :| 0 <= v < |p.workers| && p.workers[v] == Awaiting(i);
          assert p1.workers[v] == Awaiting(i);
        }
      }
    }
  }

  lemma {:induction false} StepKeepsResults<R>(p: Pool<R>, e: Event<R>)
    requires Inv(p)
    ensures Stored(Step(p, e))
  {
    hide Awaited, FailuresKept;
    var w := e.worker;
    if w < |p.workers| && p.workers[w].Awaiting? {
      AwaitedHasNoAnswer(p, w);
    }
  }

  /** What a step does to the workers: one goes on or ends. */
  lemma {:induction false} StepShape<R>(p: Pool<R>, e: Event<R>)
    requires e.worker < |p.workers| && p.workers[e.worker].Awaiting? && p.workers[e.worker].index < |p.results|
    ensures var p1, index := Step(p, e), p.workers[e.worker].index;
            && p1.answers == p.answers[index := e.reply]
            && |p1.workers| == |p.workers| && p1.workers == p.workers[e.worker := p1.workers[e.worker]]
            && (if e.reply.Failure? then p1.workers[e.worker] == Threw(index, e.reply.error)
                else !p1.workers[e.worker].Threw?)
  {
  }

  lemma {:induction false} StepKeepsFailures<R>(p: Pool<R>, e: Event<R>)
    requires Inv(p)
    ensures FailuresKept(Step(p, e))
  {
    hide InOrder, Stored, Rejection, Accounted, Awaited;
    StepKeepsReason(p, e);
    var w := e.worker;
    if w < |p.workers| && p.workers[w].Awaiting? && p.workers[w].index < |p.results| {
      AwaitedHasNoAnswer(p, w);
      StepShape(p, e);
      NewThrew(p, Step(p, e), e);
    }
  }

  lemma {:induction false} NewThrew<R>(p: Pool<R>, p1: Pool<R>, e: Event<R>)
    requires FailuresKept(p) && Rejection(p1)
    requires e.worker < |p.workers| && p.workers[e.worker].Awaiting?
    requires var index := p.workers[e.worker].index;
             && index !in p.answers && p1.answers == p.answers[index := e.reply]
             && |p1.workers| == |p.workers| && p1.workers == p.workers[e.worker := p1.workers[e.worker]]
             && (if e.reply.Failure? then p1.workers[e.worker] == Threw(index, e.reply.error)
                 else !p1.workers[e.worker].Threw?)
    ensures FailuresKept(p1)
  {
    hide Rejection;
    var w := e.worker;
    forall i | i in p1.answers && p1.answers[i].Failure? ensures ThrewOn(p1, i, p1.answers[i].error) {
      if i == p.workers[w].index {
        assert p1.workers[w] == Threw(i, p1.answers[i].error);
      } else {
        var v :| 0 <= v < |p.workers| && p.workers[v] == Threw(i, p.answers[i].error);
        assert p1.workers[v] == Threw(i, p1.answers[i].error);
      }
    }
  }

  lemma {:induction false} StepKeepsReason<R>(p: Pool<R>, e: Event<R>)
    requires Rejection(p)
    ensures Rejection(Step(p, e))
  {
    var p1, w := Step(p, e), e.worker;
    if w < |p.workers| && p.workers[w].Awaiting? && p.workers[w].index < |p.results| {
      if p.rejection.Some? {
        var v :| 0 <= v < |p.workers| && p.workers[v].Threw? && p.workers[v].error == p.rejection.value;
        assert p1.workers[v] == p.workers[v];
      } else if e.reply.Failure? {
        assert p1.workers[w].Threw? && p1.workers[w].error == e.reply.error;
      }
    }
  }

  lemma {:induction false} AwaitedHasNoAnswer<R>(p: Pool<R>, w: nat)
    requires Accounted(p) && w < |p.workers| && p.workers[w].Awaiting?
    ensures p.workers[w].index !in p.answers
  {
    assert Awaited(p, p.workers[w].index);
  }

  lemma {:induction false} RunInv<R>(size: nat, limit: int, es: seq<Event<R>>)
    ensures var p := Run(size, limit, es);
            Inv(p) && |p.workers| == WorkerCount(size, limit) && p.size == size
    decreases |es|
  {
    hide Inv, InOrder, Accounted, Stored, FailuresKept;
    if es == [] {
      StartedInv<R>(size, WorkerCount(size, limit));
    } else {
      RunInv(size, limit, es[..|es| - 1]);
      StepInv(Run(size, limit, es[..|es| - 1]), es[|es| - 1]);
    }
  }

  lemma {:induction false} StepInv<R>(p: Pool<R>, e: Event<R>)
    requires Inv(p)
    ensures Inv(Step(p, e)) && |Step(p, e).workers| == |p.workers| && Step(p, e).size == p.size
  {
    hide InOrder, Accounted, Stored, FailuresKept;
    StepKeepsOrder(p, e);
    StepKeepsAccount(p, e);
    StepKeepsResults(p, e);
    StepKeepsFailures(p, e);
  }

  // ---------- what holds in every run ----------

  /** The calls that are out. */
  function InFlight<R>(p: Pool<R>): set<nat> {
    set k | 0 <= k < |p.calls| && p.calls[k] !in p.answers :: p.calls[k]
  }

  /** The mapper is called with 0, 1, 2, and so on: no index twice, none skipped, none out of range. */
  lemma {:induction false} CallsAreClaims<R>(size: nat, limit: int, es: seq<Event<R>>)
    ensures var p := Run(size, limit, es);
            |p.calls| <= size && forall k :: 0 <= k < |p.calls| ==> p.calls[k] == k
  {
    RunInv(size, limit, es);
  }

  function AwaitedIndices(workers: seq<Worker>): (r: set<nat>)
    ensures |r| <= |workers|
    ensures forall w :: 0 <= w < |workers| && workers[w].Awaiting? ==> workers[w].index in r
  {
    if workers == [] then {}
    else
      var last := workers[|workers| - 1];
      AwaitedIndices(workers[..|workers| - 1]) + if last.Awaiting? then {last.index} else {}
  }

  lemma {:induction false} SubsetSize(a: set<nat>, b: set<nat>)
    requires a <= b
    ensures |a| <= |b|
  {
    assert b == a + (b - a);
  }

  /** Never more calls out at once than the limit allows, or one if it allows none. */
  lemma {:induction false} InFlightBounded<R>(size: nat, limit: int, es: seq<Event<R>>)
    ensures |InFlight(Run(size, limit, es))| <= if limit < 1 || size < 1 then 1 else if limit < size then limit else size
  {
    var p := Run(size, limit, es);
    RunInv(size, limit, es);
    forall i | i in InFlight(p) ensures i in AwaitedIndices(p.workers) {
      assert Awaited(p, i);
      var w :| 0 <= w < |p.workers| && p.workers[w] == Awaiting(i);
    }
    SubsetSize(InFlight(p), AwaitedIndices(p.workers));
  }

  lemma {:induction false} AllAwaitedIndices(workers: seq<Worker>)
    requires forall w :: 0 <= w < |workers| ==> workers[w].Awaiting?
    requires forall w, v :: 0 <= w < v < |workers| ==> workers[w] != workers[v]
    ensures |AwaitedIndices(workers)| == |workers|
    ensures forall i :: i in AwaitedIndices(workers) ==> exists w :: 0 <= w < |workers| && workers[w].index == i
  {
    if workers == [] {
    } else {
      AllAwaitedIndices(workers[..|workers| - 1]);
    }
  }

  /** While indices are left and nothing has failed, as many calls are out as the limit allows. */
  lemma {:induction false} BusyWhileIndicesLeft<R>(size: nat, limit: int, es: seq<Event<R>>)
    requires |Run(size, limit, es).calls| < size && Run(size, limit, es).rejection.None?
    ensures |InFlight(Run(size, limit, es))| == if limit < 1 then 1 else if limit < size then limit else size
  {
    var p := Run(size, limit, es);
    RunInv(size, limit, es);
    assert forall w :: 0 <= w < |p.workers| ==> p.workers[w].Awaiting?;
    AllAwaitedIndices(p.workers);
    forall i ensures i in InFlight(p) <==> i in AwaitedIndices(p.workers) {
      if i in InFlight(p) {
        assert Awaited(p, i);
      }
      if i in AwaitedIndices(p.workers) {
        var w :| 0 <= w < |p.workers| && p.workers[w].index == i;
        AwaitedHasNoAnswer(p, w);
        assert p.calls[i] == i;
      }
    }
    assert InFlight(p) == AwaitedIndices(p.workers);
  }

  lemma {:induction false} StartedCalls<R>(size: nat, workers: nat)
    ensures |Started<R>(size, workers).calls| == if workers < size then workers else size
  {
    StartedInv<R>(size, workers);
    if workers == 0 {
    } else {
      StartedInv<R>(size, workers - 1);
      StartedCalls<R>(size, workers - 1);
    }
  }

  /** At the start the mapper is called as often as the limit allows, and once if it allows none. */
  lemma {:induction false} StartsAtOnce<R>(size: nat, limit: int)
    ensures var p := Run<R>(size, limit, []);
            p.answers == map[] && |p.calls| == if size == 0 then 0 else if limit < 1 then 1 else if limit < size then limit else size
  {
    StartedInv<R>(size, WorkerCount(size, limit));
    StartedCalls<R>(size, WorkerCount(size, limit));
  }

  /** The first failure rejects the whole promise with its error; its worker calls the mapper no more. */
  lemma {:induction false} FailureRejects<R>(size: nat, limit: int, es: seq<Event<R>>, w: nat, error: string)
    requires w < |Run(size, limit, es).workers| && Run(size, limit, es).workers[w].Awaiting?
    ensures var p := Run(size, limit, es);
            var p1 := Run(size, limit, es + [Answered(w, Failure(error))]);
            && p1.rejection == (if p.rejection.None? then Some(error) else p.rejection)
            && p1.calls == p.calls && p1.results == p.results && p1.workers == p.workers[w := Threw(p.workers[w].index, error)]
  {
    RunInv(size, limit, es);
    RunSnoc(size, limit, es, Answered(w, Failure(error)));
  }

  /** Later answers do not change a rejection. */
  lemma {:induction false} RejectionIsFinal<R>(size: nat, limit: int, es: seq<Event<R>>, more: seq<Event<R>>)
    requires Run(size, limit, es).rejection.Some?
    ensures Run(size, limit, es + more).rejection == Run(size, limit, es).rejection
    decreases |more|
  {
    if more == [] {
      assert es + more == es;
    } else {
      RejectionIsFinal(size, limit, es, more[..|more| - 1]);
      var all := es + more;
      assert all[..|all| - 1] == es + more[..|more| - 1];
    }
  }

  ghost predicate Fulfilled<R>(p: Pool<R>) {
    forall w :: 0 <= w < |p.workers| ==> p.workers[w].Returned?
  }

  ghost predicate Quiet<R>(p: Pool<R>) {
    forall w :: 0 <= w < |p.workers| ==> !p.workers[w].Awaiting?
  }

  /** When every worker has returned, every index was called and its slot holds the mapper's answer. */
  lemma {:induction false} FulfilledIsComplete<R>(size: nat, limit: int, es: seq<Event<R>>)
    requires Fulfilled(Run(size, limit, es))
    ensures var p := Run(size, limit, es);
            && |p.calls| == size == |p.results| && p.rejection.None?
            && forall i: nat :: i < size ==>
                 i in p.answers && p.answers[i].Value? && p.results[i] == Some(p.answers[i].result)
  {
    var p := Run(size, limit, es);
    RunInv(size, limit, es);
    assert p.workers[0].Returned?;
    forall i: nat | i < size ensures i in p.answers && p.answers[i].Value? {
      assert !Awaited(p, i);
      assert p.answers[i].Failure? ==> ThrewOn(p, i, p.answers[i].error);
    }
  }

  /** When no call is out the whole promise is settled: fulfilled, or rejected with the error of some call;
      and an index is left out only if every worker has failed. */
  lemma {:induction false} QuietIsSettled<R>(size: nat, limit: int, es: seq<Event<R>>)
    requires Quiet(Run(size, limit, es))
    ensures var p := Run(size, limit, es);
            && (p.rejection.None? <==> Fulfilled(p))
            && (p.rejection.Some? ==> exists i :: i in p.answers && p.answers[i] == Failure(p.rejection.value))
            && (|p.calls| < size ==> forall w :: 0 <= w < |p.workers| ==> p.workers[w].Threw?)
  {
    var p := Run(size, limit, es);
    RunInv(size, limit, es);
    if p.rejection.Some? {
      var w :| 0 <= w < |p.workers| && p.workers[w].Threw? && p.workers[w].error == p.rejection.value;
      assert p.answers[p.workers[w].index] == Failure(p.rejection.value);
    }
    if p.rejection.None? {
      assert forall w :: 0 <= w < |p.workers| ==> !p.workers[w].Threw?;
    }
  }

  /** A failed worker does not stop the others: an answer to any call that is out is still stored, and while
      indices are left its worker takes the next one. */
  lemma {:induction false} OthersGoOn<R>(size: nat, limit: int, es: seq<Event<R>>, w: nat, result: R)
    requires w < |Run(size, limit, es).workers| && Run(size, limit, es).workers[w].Awaiting?
    ensures var p := Run(size, limit, es);
            var p1 := Run(size, limit, es + [Answered(w, Value(result))]);
            && |p1.results| == size && p.workers[w].index < size
            && p1.results[p.workers[w].index] == Some(result) && p1.rejection == p.rejection
            && p1.workers[w] == (if |p.calls| < size then Awaiting(|p.calls|) else Returned)
  {
    RunInv(size, limit, es);
    var all := es + [Answered(w, Value(result))];
    assert all[..|all| - 1] == es;
  }

  // ---------- the function itself ----------

  class SharedState<R> {
    const size: nat
    var nextIndex: nat
    const results: array<Option<R>>
    var workers: seq<Worker>
    ghost var calls: seq<nat>
    ghost var answers: map<nat, Reply<R>>
    var rejection: Option<string>

    ghost function Snapshot(): Pool<R>
      reads this, results
    {
      Pool(size, nextIndex, workers, results[..], calls, answers, rejection)
    }

    constructor (size: nat, limit: int)
      ensures Snapshot() == Started(size, WorkerCount(size, limit)) && fresh(results)
    {
      this.size, nextIndex, workers, calls, answers, rejection := size, 0, [], [], map[], None;
      results := new Option<R>[size](_ => None);
      new;
      assert results[..] == seq(size, _ => None);
      for k := 0 to WorkerCount(size, limit)
        invariant Snapshot() == Started(size, k) && |workers| == k && fresh(results)
      {
        workers := workers + [Returned];
        LoopHead(k);
      }
    }

    method LoopHead(w: nat)
      requires w < |workers|
      modifies this
      ensures Snapshot() == TakeNext(old(Snapshot()), w)
    {
      if nextIndex < size {
        var index := nextIndex;
        nextIndex := nextIndex + 1;
        calls := calls + [index];
        workers := workers[w := Awaiting(index)];
      } else {
        workers := workers[w := Returned];
      }
    }

    /** The continuation of a worker after its `await`. */
    method Resume(w: nat, reply: Reply<R>)
      requires w < |workers| && workers[w].Awaiting? && workers[w].index < results.Length
      modifies this, results
      ensures Snapshot() == Step(old(Snapshot()), Answered(w, reply))
    {
      var index := workers[w].index;
      answers := answers[index := reply];
      match reply {
        case Value(result) =>
          results[index] := Some(result);
          LoopHead(w);
        case Failure(error) =>
          workers := workers[w := Threw(index, error)];
          if rejection.None? {
            rejection := Some(error);
          }
      }
    }
  }

  lemma {:induction false} RunStarts<R>(size: nat, limit: int)
    ensures Run<R>(size, limit, []) == Started(size, WorkerCount(size, limit)) && Started<R>(size, 0).answers == map[]
    ensures Run<R>(size, limit, []).answers == map[]
  {
    StartedInv<R>(size, WorkerCount(size, limit));
  }

  lemma {:induction false} RunSnoc<R>(size: nat, limit: int, es: seq<Event<R>>, e: Event<R>)
    ensures Run(size, limit, es + [e]) == Step(Run(size, limit, es), e)
  {
    assert (es + [e])[..|es + [e]| - 1] == es;
  }

  function UpTo(n: nat): (r: set<nat>)
    ensures |r| == n
    ensures forall i: nat :: i in r <==> i < n
  {
    if n == 0 then {} else UpTo(n - 1) + {n - 1}
  }

  lemma {:induction false} AnswersFit<R>(p: Pool<R>)
    requires Inv(p)
    ensures |p.answers| <= p.size
  {
    SubsetSize(p.answers.Keys, UpTo(p.size));
  }

  function Values<R>(results: seq<Option<R>>): (r: seq<R>)
    requires forall i :: 0 <= i < |results| ==> results[i].Some?
    ensures |r| == |results| && forall i :: 0 <= i < |r| ==> results[i] == Some(r[i])
  {
    seq(|results|, i requires 0 <= i < |results| => results[i].value)
  }

  /** The shared state is that of the run `es`, and the answers so far are the mapper's. */
  ghost predicate Follows<R>(s: SharedState<R>, size: nat, limit: int, mapper: nat -> Reply<R>, es: seq<Event<R>>)
    reads s, s.results
  {
    && s.Snapshot() == Run(size, limit, es)
    && forall i :: i in s.answers ==> s.answers[i] == mapper(i)
  }

  /** One call is answered, and its worker runs on to its next `await` or ends. */
  method AnswerNext<R>(s: SharedState<R>, w: nat, size: nat, limit: int, mapper: nat -> Reply<R>, ghost es: seq<Event<R>>)
      returns (ghost es1: seq<Event<R>>)
    requires Follows(s, size, limit, mapper, es) && w < |s.workers| && s.workers[w].Awaiting?
    modifies s, s.results
    ensures Follows(s, size, limit, mapper, es1) && |s.answers| == |old(s.answers)| + 1 <= size
  {
    hide Run, Started, Inv;
    ghost var p := s.Snapshot();
    RunInv(size, limit, es);
    OutIsNew(p, w);
    var reply := mapper(s.workers[w].index);
    es1 := es + [Answered(w, reply)];
    RunSnoc(size, limit, es, Answered(w, reply));
    StepInv(p, Answered(w, reply));
    AnswersFit(Step(p, Answered(w, reply)));
    StepAnswers(p, Answered(w, reply));
    hide Step;
    s.Resume(w, reply);
  }

  lemma {:induction false} OutIsNew<R>(p: Pool<R>, w: nat)
    requires Inv(p) && w < |p.workers| && p.workers[w].Awaiting?
    ensures p.workers[w].index < |p.results| && p.workers[w].index !in p.answers
  {
    AwaitedHasNoAnswer(p, w);
  }

  lemma {:induction false} StepAnswers<R>(p: Pool<R>, e: Event<R>)
    requires e.worker < |p.workers| && p.workers[e.worker].Awaiting? && p.workers[e.worker].index < |p.results|
    ensures Step(p, e).answers == p.answers[p.workers[e.worker].index := e.reply]
  {
  }

  /** Whichever call is answered next: the pool comes to rest, with the mapper's answers in order if there was
      no failure, and otherwise rejected with the error of a call that failed. */
  method MapConcurrent<R>(size: nat, limit: int, mapper: nat -> Reply<R>) returns (r: Reply<seq<R>>, ghost es: seq<Event<R>>)
    ensures Quiet(Run(size, limit, es))
    ensures r.Failure? ==> Run(size, limit, es).rejection == Some(r.error)
    ensures r.Value? <==> forall i: nat :: i < size ==> mapper(i).Value?
    ensures r.Value? ==> |r.result| == size && forall i: nat :: i < size ==> mapper(i) == Value(r.result[i])
    ensures r.Failure? ==> exists i: nat :: i < size && mapper(i) == Failure(r.error)
  {
    hide Run, Started;
    var s := new SharedState(size, limit);
    es := [];
    RunStarts<R>(size, limit);
    while exists w :: 0 <= w < |s.workers| && s.workers[w].Awaiting?
      invariant fresh(s) && fresh(s.results)
      invariant Follows(s, size, limit, mapper, es)
      decreases size - |s.answers|
    {
      var w :| 0 <= w < |s.workers| && s.workers[w].Awaiting?;
      es := AnswerNext(s, w, size, limit, mapper, es);
    }
    r := AllSettled(s, size, limit, mapper, es);
  }

  /** What `Promise.all` makes of the workers once they are at rest. */
  method AllSettled<R>(s: SharedState<R>, size: nat, limit: int, mapper: nat -> Reply<R>, ghost es: seq<Event<R>>)
      returns (r: Reply<seq<R>>)
    requires Follows(s, size, limit, mapper, es) && Quiet(s.Snapshot())
    ensures r.Failure? ==> Run(size, limit, es).rejection == Some(r.error)
    ensures r.Value? <==> forall i: nat :: i < size ==> mapper(i).Value?
    ensures r.Value? ==> |r.result| == size && forall i: nat :: i < size ==> mapper(i) == Value(r.result[i])
    ensures r.Failure? ==> exists i: nat :: i < size && mapper(i) == Failure(r.error)
  {
    hide Run, Quiet, Fulfilled, Inv;
    QuietIsSettled(size, limit, es);
    AnsweredInRange(size, limit, es);
    if s.rejection.Some? {
      r := Failure(s.rejection.value);
    } else {
      FulfilledIsComplete(size, limit, es);
      r := Value(Values(s.results[..]));
    }
  }

  lemma {:induction false} AnsweredInRange<R>(size: nat, limit: int, es: seq<Event<R>>)
    ensures forall i :: i in Run(size, limit, es).answers ==> i < size
  {
    RunInv(size, limit, es);
  }
}
