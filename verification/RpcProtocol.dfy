/** The request protocol of the translation process as a state machine, and what holds in every run. */
module RpcProtocol {
  import opened Options

  /** How the promise of one `prompt` call ends, and what an `agent_end` message carries. */
  datatype Outcome = Resolved(text: string) | Rejected(error: string)

  /** The prompt waiting for its answer.  `call` says which `prompt` call owns its promise. */
  datatype Pending = Pending(id: nat, call: nat, responseReceived: bool)

  /** The chained `sequence` promise: continuations run one at a time in call order, and once it is
      rejected every later link is rejected with the same error without running. */
  datatype Sequence = Sequence(called: nat, started: nat, active: Option<nat>, failure: Option<string>)

  /** `written` lists the calls whose prompt went to the process; the request with number n, counted
      from 1, belongs to `written[n - 1]`.  `settled` holds the promises that have ended. */
  datatype Client = Client(
    closed: bool,
    pending: Option<Pending>,
    requestCount: nat,
    sequence: Sequence,
    written: seq<nat>,
    settled: map<nat, Outcome>)

  /** `request` is the number of the prompt whose turn the process ended.  The message does not carry it: it is
      recorded to say what the process meant, and no step looks at it. */
  datatype Line =
    | Noise
    | Response(id: nat, success: bool, error: string)
    | AgentEnd(request: nat, result: Outcome)

  /** Everything that can happen, in any order. */
  datatype Event =
    | PromptCalled
    | Continue
    | StdoutLine(line: Line)
    | TimerFired(id: nat)
    | WriteFailed(id: nat, error: string)
    | ProcessError(error: string)
    | ProcessClosed
    | CloseCalled

  const UNAVAILABLE := "pi process unavailable"
  const CLOSED := "pi process closed"
  const TIMED_OUT := "translation prompt timed out"

  const FRESH: Client := Client(false, None, 0, Sequence(0, 0, None, None), [], map[])

  // ---------- the steps ----------

  /** Settling the promise of a call; a second attempt is ignored.  The awaiting continuation ends with it. */
  function Settle(s: Client, call: nat, outcome: Outcome): Client {
    if call in s.settled then
      s
    else
      s.(settled := s.settled[call := outcome],
         sequence := s.sequence.(
           active := if s.sequence.active == Some(call) then None else s.sequence.active,
           failure := if outcome.Rejected? && s.sequence.failure.None? then Some(outcome.error)
                      else s.sequence.failure))
  }

  function RejectPending(s: Client, error: string): Client {
    match s.pending
    case None => s
    case Some(p) => Settle(s.(pending := None), p.call, Rejected(error))
  }

  /** The next link of `sequence`, if the one before it has ended. */
  function RunNext(s: Client): Client {
    var q := s.sequence;
    if q.active.Some? || q.started == q.called then
      s
    else
      var s1 := s.(sequence := q.(started := q.started + 1));
      if q.failure.Some? then
        Settle(s1, q.started, Rejected(q.failure.value))
      else if s.closed then
        Settle(s1, q.started, Rejected(UNAVAILABLE))
      else
        s1.(requestCount := s.requestCount + 1,
            pending := Some(Pending(s.requestCount + 1, q.started, false)),
            written := s.written + [q.started],
            sequence := s1.sequence.(active := Some(q.started)))
  }

  function HandleLine(s: Client, line: Line): Client {
    match (s.pending, line)
    case (None, _) => s
    case (Some(_), Noise) => s
    case (Some(p), Response(id, success, error)) =>
      if id != p.id then s
      else if !success then Settle(s.(pending := None), p.call, Rejected(error))
      else s.(pending := Some(p.(responseReceived := true)))
    case (Some(p), AgentEnd(_, result)) => Settle(s.(pending := None), p.call, result)
  }

  predicate IsPending(s: Client, id: nat) {
    s.pending.Some? && s.pending.value.id == id
  }

  function Step(s: Client, e: Event): Client {
    match e
    case PromptCalled => s.(sequence := s.sequence.(called := s.sequence.called + 1))
    case Continue => RunNext(s)
    case StdoutLine(line) => HandleLine(s, line)
    case TimerFired(id) =>
      if IsPending(s, id) then
        Settle(s.(pending := None, closed := true), s.pending.value.call, Rejected(TIMED_OUT))
      else s
    case WriteFailed(id, error) =>
      var s1 := if IsPending(s, id) then s.(pending := None) else s;
      if 1 <= id <= |s.written| then Settle(s1, s.written[id - 1], Rejected(error)) else s1
    case ProcessError(error) => RejectPending(s, error)
    case ProcessClosed => RejectPending(s.(closed := true), CLOSED)
    case CloseCalled => s.(closed := true)
  }

  predicate Ends(e: Event) {
    e.StdoutLine? && e.line.AgentEnd?
  }

  function Run(es: seq<Event>): Client {
    if es == [] then FRESH else Step(Run(es[..|es| - 1]), es[|es| - 1])
  }

  // ---------- the invariant ----------

  /** The only unsettled call that was started is the one that is pending. */
  ghost predicate OnePending(s: Client) {
    && (s.sequence.active.None? <==> s.pending.None?)
    && (s.pending.Some? ==>
          && s.sequence.active == Some(s.pending.value.call)
          && s.pending.value.id == s.requestCount == |s.written|
          && |s.written| > 0 && s.pending.value.call == s.written[|s.written| - 1]
          && s.pending.value.call + 1 == s.sequence.started)
  }

  ghost predicate InCallOrder(s: Client) {
    && s.sequence.started <= s.sequence.called
    && s.requestCount == |s.written| <= s.sequence.started
    && (forall i :: 0 <= i < |s.written| ==> s.written[i] == i)
    && (forall c: nat :: c in s.settled <==> c < s.sequence.started && s.sequence.active != Some(c))
  }

  /** While nothing failed, every started call was written and the ended ones succeeded. */
  ghost predicate FailureStops(s: Client) {
    && (s.sequence.failure.None? ==>
          && |s.written| == s.sequence.started
          && forall c :: c in s.settled ==> s.settled[c].Resolved?)
    && (s.sequence.failure.Some? ==> s.sequence.active.None?)
  }

  ghost predicate Inv(s: Client) {
    OnePending(s) && InCallOrder(s) && FailureStops(s)
  }

  /** Whatever ends the pending prompt, and whether or not the client is closed with it. */
  lemma {:induction false} EndPendingKeeps(s: Client, closed: bool, outcome: Outcome)
    requires Inv(s) && s.pending.Some?
    ensures Inv(Settle(s.(pending := None, closed := closed), s.pending.value.call, outcome))
  {
  }

  lemma {:induction false} RunNextKeeps(s: Client)
    requires Inv(s)
    ensures Inv(RunNext(s))
  {
  }

  lemma {:induction false} StepKeeps(s: Client, e: Event)
    requires Inv(s)
    ensures Inv(Step(s, e))
  {
    hide RunNext, Settle;
    RunNextKeeps(s);
    if s.pending.Some? {
      EndPendingKeeps(s, s.closed, if Ends(e) then e.line.result else ErrorOf(e));
      EndPendingKeeps(s, true, ErrorOf(e));
    }
    if e.WriteFailed? && !IsPending(s, e.id) && 1 <= e.id <= |s.written| {
      LateWriteFailure(s, e.id, e.error);
    }
  }

  function ErrorOf(e: Event): Outcome {
    match e
    case StdoutLine(Response(_, _, error)) => Rejected(error)
    case TimerFired(_) => Rejected(TIMED_OUT)
    case WriteFailed(_, error) => Rejected(error)
    case ProcessError(error) => Rejected(error)
    case _ => Rejected(CLOSED)
  }

  /** A write error reported after its prompt has ended has no effect. */
  lemma {:induction false} LateWriteFailure(s: Client, id: nat, error: string)
    requires Inv(s) && !IsPending(s, id) && 1 <= id <= |s.written|
    ensures Settle(s, s.written[id - 1], Rejected(error)) == s
  {
    assert s.written[id - 1] in s.settled;
  }

  lemma {:induction false} RunKeeps(es: seq<Event>)
    ensures Inv(Run(es))
  {
    if es == [] {
      assert Inv(FRESH);
    } else {
      RunKeeps(es[..|es| - 1]);
      StepKeeps(Run(es[..|es| - 1]), es[|es| - 1]);
    }
  }

  // ---------- whole runs ----------

  lemma {:induction false} RunSnoc(es: seq<Event>, e: Event)
    ensures Run(es + [e]) == Step(Run(es), e)
  {
    assert (es + [e])[..|es|] == es;
  }

  /** In every run at most one written prompt is unanswered, it is the last one written and the one that
      is pending, and prompts reach the process in the order of the calls, none skipped. */
  lemma {:induction false} AtMostOnePending(es: seq<Event>)
    ensures var s := Run(es);
            && (forall i :: 0 <= i < |s.written| ==> s.written[i] == i)
            && (forall c :: c in s.written && c !in s.settled ==>
                  s.pending.Some? && s.pending.value.call == c == s.written[|s.written| - 1])
            && (s.pending.Some? ==> s.pending.value.call in s.written && s.pending.value.call !in s.settled)
  {
    RunKeeps(es);
    var s := Run(es);
    if s.pending.Some? {
      assert s.written[|s.written| - 1] in s.written;
    }
  }

  lemma {:induction false} StepSettles(s: Client, e: Event)
    ensures s.settled.Keys <= Step(s, e).settled.Keys
    ensures forall c :: c in s.settled ==> Step(s, e).settled[c] == s.settled[c]
  {
  }

  /** A promise that has ended keeps its outcome whatever happens afterwards. */
  lemma {:induction false} SettledOnce(es: seq<Event>, more: seq<Event>)
    ensures forall c :: c in Run(es).settled ==>
              c in Run(es + more).settled && Run(es + more).settled[c] == Run(es).settled[c]
  {
    if more == [] {
      assert es + more == es;
    } else {
      var init, last := more[..|more| - 1], more[|more| - 1];
      SettledOnce(es, init);
      assert es + more == (es + init) + [last];
      RunSnoc(es + init, last);
      StepSettles(Run(es + init), last);
    }
  }

  ghost predicate Succeeds(s: Client, s1: Client, c: nat, text: string) {
    c !in s.settled && c in s1.settled && s1.settled[c] == Resolved(text)
  }

  lemma {:induction false} SettleSucceeds(s: Client, call: nat, outcome: Outcome, c: nat, text: string)
    ensures Succeeds(s, Settle(s, call, outcome), c, text)
       <==> c == call && c !in s.settled && outcome == Resolved(text)
  {
  }

  lemma {:induction false} StepSucceeds(s: Client, e: Event, c: nat, text: string)
    requires Inv(s)
    ensures Succeeds(s, Step(s, e), c, text)
       <==> Ends(e) && e.line.result == Resolved(text) && s.pending.Some? && s.pending.value.call == c
  {
    match e
    case StdoutLine(AgentEnd(_, result)) =>
      if s.pending.Some? {
        SettleSucceeds(s.(pending := None), s.pending.value.call, result, c, text);
      }
    case _ =>
      OnlyAgentEndSucceeds(s, e, c, text);
  }

  lemma {:induction false} OnlyAgentEndSucceeds(s: Client, e: Event, c: nat, text: string)
    requires !Ends(e)
    ensures !Succeeds(s, Step(s, e), c, text)
  {
  }

  /** A step makes a call succeed exactly when it is an `agent_end` with a text and the call is pending. */
  lemma {:induction false} DeliveredToPending(es: seq<Event>, e: Event, c: nat, text: string)
    ensures Succeeds(Run(es), Run(es + [e]), c, text)
       <==> (Ends(e) && e.line.result == Resolved(text)
             && Run(es).pending.Some? && Run(es).pending.value.call == c)
  {
    RunSnoc(es, e);
    RunKeeps(es);
    StepSucceeds(Run(es), e, c, text);
  }

  ghost predicate Fails(s: Client, s1: Client, c: nat, error: string) {
    c !in s.settled && c in s1.settled && s1.settled[c] == Rejected(error)
  }

  lemma {:induction false} SettleFails(s: Client, call: nat, outcome: Outcome, c: nat, error: string)
    ensures Fails(s, Settle(s, call, outcome), c, error) <==> c == call && c !in s.settled && outcome == Rejected(error)
  {
  }

  /** What makes the pending prompt fail, and with which error. */
  ghost predicate FailsPending(p: Pending, e: Event, error: string) {
    match e
    case StdoutLine(Response(id, success, reason)) => id == p.id && !success && reason == error
    case StdoutLine(AgentEnd(_, result)) => result == Rejected(error)
    case TimerFired(id) => id == p.id && error == "translation prompt timed out"
    case WriteFailed(id, reason) => id == p.id && reason == error
    case ProcessError(reason) => reason == error
    case ProcessClosed => error == "pi process closed"
    case _ => false
  }

  /** What makes the next link fail without a prompt being sent: an earlier failure, or a client that is closed. */
  ghost predicate FailsNext(s: Client, e: Event, c: nat, error: string) {
    && e == Continue && s.sequence.active.None? && c == s.sequence.started < s.sequence.called
    && if s.sequence.failure.Some? then error == s.sequence.failure.value
       else s.closed && error == "pi process unavailable"
  }

  lemma {:induction false} StepFails(s: Client, e: Event, c: nat, error: string)
    requires Inv(s)
    ensures Fails(s, Step(s, e), c, error) <==>
              (s.pending.Some? && s.pending.value.call == c && FailsPending(s.pending.value, e, error)) || FailsNext(s, e, c, error)
  {
    if e == Continue {
      NextFails(s, c, error);
    } else if s.pending.Some? {
      PendingFails(s, e, c, error);
    } else if e.WriteFailed? && 1 <= e.id <= |s.written| {
      LateWriteFailure(s, e.id, e.error);
    }
  }

  lemma {:induction false} NextFails(s: Client, c: nat, error: string)
    requires Inv(s)
    ensures Fails(s, RunNext(s), c, error) <==> FailsNext(s, Continue, c, error)
  {
    hide Settle;
    var s1 := s.(sequence := s.sequence.(started := s.sequence.started + 1));
    SettleFails(s1, s.sequence.started, Rejected(UNAVAILABLE), c, error);
    if s.sequence.failure.Some? {
      SettleFails(s1, s.sequence.started, Rejected(s.sequence.failure.value), c, error);
    }
  }

  lemma {:induction false} PendingFails(s: Client, e: Event, c: nat, error: string)
    requires Inv(s) && s.pending.Some? && e != Continue
    ensures Fails(s, Step(s, e), c, error) <==> s.pending.value.call == c && FailsPending(s.pending.value, e, error)
  {
    hide Settle;
    var p := s.pending.value;
    assert p.call !in s.settled;
    if Ends(e) {
      SettleFails(s.(pending := None), p.call, e.line.result, c, error);
    } else {
      SettleFails(s.(pending := None), p.call, ErrorOf(e), c, error);
      SettleFails(s.(pending := None, closed := true), p.call, ErrorOf(e), c, error);
      if e.WriteFailed? && 1 <= e.id <= |s.written| {
        SettleFails(s, s.written[e.id - 1], Rejected(e.error), c, error);
        if !IsPending(s, e.id) {
          LateWriteFailure(s, e.id, e.error);
        }
      }
    }
  }

  /** A step makes a call fail with an error exactly if the call is pending and the step is a failed response to
      its request, an `agent_end` with that error, its timer, its write error, an error of the process or the
      process closing; or if it is the next call and the sequence had failed before or the client was closed. */
  lemma {:induction false} FailsExactly(es: seq<Event>, e: Event, c: nat, error: string)
    ensures Fails(Run(es), Run(es + [e]), c, error) <==>
              (Run(es).pending.Some? && Run(es).pending.value.call == c && FailsPending(Run(es).pending.value, e, error))
              || FailsNext(Run(es), e, c, error)
  {
    RunSnoc(es, e);
    RunKeeps(es);
    StepFails(Run(es), e, c, error);
  }

  /** A client is closed by its process, by a call of `close`, and by the timer of the pending prompt. */
  lemma {:induction false} ClosedBy(es: seq<Event>, e: Event)
    ensures Run(es + [e]).closed <==>
              Run(es).closed || e == ProcessClosed || e == CloseCalled
              || (e.TimerFired? && Run(es).pending.Some? && e.id == Run(es).pending.value.id)
  {
    RunSnoc(es, e);
  }

  ghost predicate FailureKept(s: Client) {
    forall c :: c in s.settled && s.settled[c].Rejected? ==> s.sequence.failure == Some(s.settled[c].error)
  }

  lemma {:induction false} StepKeepsFailure(s: Client, e: Event)
    requires Inv(s) && FailureKept(s)
    ensures FailureKept(Step(s, e))
  {
    if e.WriteFailed? && !IsPending(s, e.id) && 1 <= e.id <= |s.written| {
      LateWriteFailure(s, e.id, e.error);
    }
  }

  lemma {:induction false} RunKeepsFailure(es: seq<Event>)
    ensures FailureKept(Run(es))
  {
    if es == [] {
    } else {
      RunKeepsFailure(es[..|es| - 1]);
      RunKeeps(es[..|es| - 1]);
      StepKeepsFailure(Run(es[..|es| - 1]), es[|es| - 1]);
    }
  }

  /** All calls of a run that fail do so with the error of the first. */
  lemma {:induction false} AllFailAlike(es: seq<Event>, c: nat, d: nat)
    requires c in Run(es).settled && Run(es).settled[c].Rejected?
    requires d in Run(es).settled && Run(es).settled[d].Rejected?
    ensures Run(es).settled[c] == Run(es).settled[d]
  {
    RunKeepsFailure(es);
  }

  ghost predicate SomeFailed(s: Client) {
    exists c :: c in s.settled && s.settled[c].Rejected?
  }

  /** Once one prompt failed, nothing that follows makes the client write again. */
  lemma {:induction false} NoWriteAfterFailure(es: seq<Event>, more: seq<Event>)
    requires SomeFailed(Run(es))
    ensures Run(es + more).written == Run(es).written
  {
    if more == [] {
      assert es + more == es;
    } else {
      var init, last := more[..|more| - 1], more[|more| - 1];
      NoWriteAfterFailure(es, init);
      assert es + more == (es + init) + [last];
      RunSnoc(es + init, last);
      SettledOnce(es, init);
      RunKeeps(es + init);
      assert SomeFailed(Run(es + init));
    }
  }

  lemma {:induction false} FailureHasCall(es: seq<Event>)
    requires Run(es).sequence.failure.Some?
    ensures SomeFailed(Run(es))
  {
    if es == [] {
    } else {
      var s := Run(es[..|es| - 1]);
      RunKeeps(es[..|es| - 1]);
      if s.sequence.failure.Some? {
        FailureHasCall(es[..|es| - 1]);
        StepSettles(s, es[|es| - 1]);
      } else {
        FirstFailure(s, es[|es| - 1]);
      }
    }
  }

  lemma {:induction false} FirstFailure(s: Client, e: Event)
    requires s.sequence.failure.None? && Step(s, e).sequence.failure.Some?
    ensures SomeFailed(Step(s, e))
  {
    var s1 := Step(s, e);
    var c :| c in s1.settled && c !in s.settled;
  }

  /** When all prompts called so far have ended, the next one is written if and only if none of them failed and
      the client is not closed. */
  lemma {:induction false} NextPromptIsWrittenIff(es: seq<Event>)
    requires forall c: nat :: c < Run(es).sequence.called ==> c in Run(es).settled
    ensures var s, s1 := Run(es), Run(es + [PromptCalled] + [Continue]);
            && s1.written == (if s.closed || SomeFailed(s) then s.written else s.written + [s.sequence.called])
  {
    var s := Run(es);
    RunKeeps(es);
    RunSnoc(es, PromptCalled);
    RunSnoc(es + [PromptCalled], Continue);
    assert s.sequence.active.None? && s.sequence.started == s.sequence.called;
    if s.sequence.failure.Some? {
      FailureHasCall(es);
    }
  }

  // ---------- which answer goes to which prompt ----------

  /** Line `k` is an `agent_end` that finds a prompt pending; the others are dropped. */
  ghost predicate Taken(es: seq<Event>, k: nat) {
    k < |es| && Ends(es[k]) && Run(es[..k]).pending.Some?
  }

  /** Every `agent_end` taken as an answer was the end of the turn of the prompt it is given to. */
  ghost predicate OwnAnswers(es: seq<Event>) {
    forall k: nat :: Taken(es, k) ==> es[k].line.request == Run(es[..k]).pending.value.id
  }

  /** The turn ended is that of a prompt already written. */
  ghost predicate Asked(es: seq<Event>, k: nat)
    requires k < |es| && Ends(es[k])
  {
    1 <= es[k].line.request <= |Run(es[..k]).written|
  }

  /** The process ends a turn only after its prompt was written, and none twice. */
  ghost predicate Disciplined(es: seq<Event>) {
    && (forall k: nat :: k < |es| && Ends(es[k]) ==> Asked(es, k))
    && (forall j: nat, k: nat :: j < k < |es| && Ends(es[j]) && Ends(es[k]) ==> es[j].line.request != es[k].line.request)
  }

  /** The same of the lines that are taken. */
  ghost predicate DisciplinedWhereTaken(es: seq<Event>) {
    && (forall k: nat :: Taken(es, k) ==> Asked(es, k))
    && (forall j: nat, k: nat :: j < k && Taken(es, j) && Taken(es, k) ==> es[j].line.request != es[k].line.request)
  }

  /** The prompt that is pending is the last one written, and everything before it was answered. */
  lemma {:induction false} PendingNumber(es: seq<Event>)
    requires Run(es).pending.Some?
    ensures var s := Run(es);
            && s.pending.value.id == |s.written| == s.pending.value.call + 1
            && s.pending.value.call !in s.settled
            && forall c: nat :: c + 1 < |s.written| ==> c in s.settled && s.settled[c].Resolved?
  {
    RunKeeps(es);
  }

  /** A call that succeeded did so when a line was taken while it was pending. */
  lemma {:induction false} ResolvedByTaken(es: seq<Event>, c: nat) returns (k: nat)
    requires c in Run(es).settled && Run(es).settled[c].Resolved?
    ensures Taken(es, k) && Run(es[..k]).pending.value.call == c && es[k].line.result == Run(es).settled[c]
    decreases |es|
  {
    var init, last := es[..|es| - 1], es[|es| - 1];
    if c in Run(init).settled {
      StepSettles(Run(init), last);
      k := ResolvedByTaken(init, c);
      assert init[..k] == es[..k];
    } else {
      RunKeeps(init);
      StepSucceeds(Run(init), last, c, Run(es).settled[c].text);
      k := |init|;
    }
  }

  /** Two lines taken are taken by different prompts. */
  lemma {:induction false} TakenByOthers(es: seq<Event>, j: nat, k: nat)
    requires j < k && Taken(es, j) && Taken(es, k)
    ensures Run(es[..j]).pending.value.id != Run(es[..k]).pending.value.id
  {
    hide Step;
    var c := Run(es[..j]).pending.value.call;
    PendingNumber(es[..j]);
    PendingNumber(es[..k]);
    assert c in Run(es[..j + 1]).settled by {
      assert es[..j + 1][..j] == es[..j];
      EndSettles(Run(es[..j]), es[j]);
    }
    assert es[..k] == es[..j + 1] + es[j + 1..k];
    SettledOnce(es[..j + 1], es[j + 1..k]);
  }

  lemma {:induction false} EndSettles(s: Client, e: Event)
    requires Ends(e) && s.pending.Some?
    ensures s.pending.value.call in Step(s, e).settled
  {
  }

  /** A line that is taken, and whose turn was not ended by an earlier line taken rightly, is taken rightly. */
  lemma {:induction false} NextIsOwn(es: seq<Event>, k: nat)
    requires DisciplinedWhereTaken(es) && Taken(es, k)
    requires forall j: nat :: j < k && Taken(es, j) ==> es[j].line.request == Run(es[..j]).pending.value.id
    ensures es[k].line.request == Run(es[..k]).pending.value.id
  {
    hide Run;
    var s, r := Run(es[..k]), es[k].line.request;
    PendingNumber(es[..k]);
    assert Asked(es, k);
    if r < |s.written| {
      var j := ResolvedByTaken(es[..k], r - 1);
      assert es[..k][..j] == es[..j];
      assert Taken(es, j);
      PendingNumber(es[..j]);
    }
  }

  lemma {:induction false} OwnUpTo(es: seq<Event>, n: nat)
    requires DisciplinedWhereTaken(es)
    ensures forall k: nat :: k < n && Taken(es, k) ==> es[k].line.request == Run(es[..k]).pending.value.id
  {
    hide Run, Taken, DisciplinedWhereTaken;
    if n == 0 {
    } else {
      OwnUpTo(es, n - 1);
      if Taken(es, n - 1) {
        NextIsOwn(es, n - 1);
      }
    }
  }

  /** Nothing on a line tells which prompt it answers.  In every run each answer goes to its own prompt if and only
      if, among the lines that find a prompt pending, each ends the turn of a prompt already written and no two
      that of the same prompt. */
  lemma {:induction false} OwnAnswersIff(es: seq<Event>)
    ensures OwnAnswers(es) <==> DisciplinedWhereTaken(es)
  {
    hide Run;
    if DisciplinedWhereTaken(es) {
      OwnUpTo(es, |es|);
    }
    if OwnAnswers(es) {
      forall k: nat | Taken(es, k) ensures Asked(es, k) {
        PendingNumber(es[..k]);
      }
      forall j: nat, k: nat | j < k && Taken(es, j) && Taken(es, k) ensures es[j].line.request != es[k].line.request {
        TakenByOthers(es, j, k);
      }
    }
  }

  /** If the process ends each turn at most once and after the prompt was written, every call that succeeded got
      the text with which the process ended the turn of that very call. */
  lemma {:induction false} AnswersAreOwn(es: seq<Event>, c: nat)
    requires Disciplined(es) && c in Run(es).settled && Run(es).settled[c].Resolved?
    ensures OwnAnswers(es)
    ensures exists k: nat :: k < |es| && es[k] == StdoutLine(AgentEnd(c + 1, Run(es).settled[c]))
  {
    hide Run, Asked;
    OwnAnswersIff(es);
    var k := ResolvedByTaken(es, c);
    PendingNumber(es[..k]);
    assert es[k] == StdoutLine(AgentEnd(c + 1, Run(es).settled[c]));
  }

  // ---------- counting the answers ----------

  /** The results carried by the `agent_end` lines of a run, in order. */
  function AgentEnds(es: seq<Event>): seq<Outcome> {
    if es == [] then []
    else
      var last := es[|es| - 1];
      AgentEnds(es[..|es| - 1]) + if Ends(last) then [last.line.result] else []
  }

  /** There are never more `agent_end` lines than prompts written. */
  ghost predicate Orderly(es: seq<Event>) {
    forall k :: 0 <= k <= |es| ==> |AgentEnds(es[..k])| <= |Run(es[..k]).written|
  }

  ghost predicate Matched(s: Client, ends: seq<Outcome>) {
    && (s.sequence.failure.None? ==> |ends| == |s.settled.Keys| == Answered(s))
    && (forall c :: c in s.settled && s.settled[c].Resolved? ==> c < |ends| && ends[c] == s.settled[c])
  }

  lemma {:induction false} SettledCount(s: Client)
    requires Inv(s) && s.sequence.failure.None?
    ensures |s.settled.Keys| == Answered(s)
  {
    var n := Answered(s);
    hide Below;
    forall c: nat ensures c in s.settled.Keys <==> c in Below(n) {
    }
    assert s.settled.Keys == Below(n);
  }

  function Below(n: nat): (r: set<nat>)
    ensures |r| == n && forall c: nat :: c in r <==> c < n
  {
    if n == 0 then {} else Below(n - 1) + {n - 1}
  }

  /** Seen from the client, which can only count: while there are no more `agent_end` lines than prompts, the call
      number c that succeeds got the `agent_end` number c, whichever prompt the process meant by it. */
  lemma {:induction false} AnswersInOrder(es: seq<Event>)
    requires Orderly(es)
    ensures Matched(Run(es), AgentEnds(es))
  {
    RunKeeps(es);
    if es == [] {
    } else {
      var init, last := es[..|es| - 1], es[|es| - 1];
      forall k | 0 <= k <= |init| ensures |AgentEnds(init[..k])| <= |Run(init[..k]).written| {
        assert init[..k] == es[..k];
      }
      AnswersInOrder(init);
      RunKeeps(init);
      assert es[..|es|] == es;
      MatchStep(Run(init), AgentEnds(init), last);
    }
  }

  lemma {:induction false} MatchStep(s: Client, ends: seq<Outcome>, e: Event)
    requires Inv(s) && Inv(Step(s, e)) && Matched(s, ends)
    requires var more := if Ends(e) then [e.line.result] else [];
             |ends + more| <= |Step(s, e).written|
    ensures var more := if Ends(e) then [e.line.result] else [];
            Matched(Step(s, e), ends + more)
  {
    hide Step, OnePending, InCallOrder, FailureStops, Below;
    var s1 := Step(s, e);
    if s1.sequence.failure.None? {
      SettledCount(s1);
      NoNewFailure(s, e);
      SettledCount(s);
      AnsweredStep(s, e);
    }
    forall c | c in s1.settled && s1.settled[c].Resolved? && c !in s.settled
      ensures Ends(e) && e.line.result == s1.settled[c] && c == |ends|
    {
      StepSucceeds(s, e, c, s1.settled[c].text);
      PendingIsNext(s, ends);
    }
    StepSettles(s, e);
  }

  function Answered(s: Client): int {
    |s.written| - if s.pending.Some? then 1 else 0
  }

  /** Without a failure, one more prompt is answered exactly by an `agent_end` for a pending one. */
  lemma {:induction false} AnsweredStep(s: Client, e: Event)
    requires Inv(s) && Step(s, e).sequence.failure.None?
    ensures Answered(Step(s, e)) == Answered(s) +
              if Ends(e) && s.pending.Some? then 1 else 0
    ensures e.StdoutLine? ==> |Step(s, e).written| == |s.written|
  {
    if s.pending.Some? {
      assert s.pending.value.call !in s.settled;
    }
    if e.WriteFailed? && !IsPending(s, e.id) && 1 <= e.id <= |s.written| {
      LateWriteFailure(s, e.id, e.error);
    }
  }

  lemma {:induction false} NoNewFailure(s: Client, e: Event)
    requires Step(s, e).sequence.failure.None?
    ensures s.sequence.failure.None?
  {
  }

  /** The pending call is the one that as many others were answered before. */
  lemma {:induction false} PendingIsNext(s: Client, ends: seq<Outcome>)
    requires Inv(s) && s.pending.Some? && Matched(s, ends)
    ensures s.sequence.failure.None? && s.pending.value.call == |ends|
  {
    hide Below;
  }

  /** Two prompts called, the first of them answered. */
  function TwoPrompts(first: string): seq<Event> {
    [PromptCalled, PromptCalled, Continue, StdoutLine(AgentEnd(1, Resolved(first)))]
  }

  /** The first prompt is answered, the second written, and the turn of the first ended once more. */
  function EndedTwice(first: string, surplus: string): seq<Event> {
    TwoPrompts(first) + [Continue] + [StdoutLine(AgentEnd(1, Resolved(surplus)))]
  }

  /** Counting does not help where the process ends a turn twice: the second prompt is given what the process said
      to the first. */
  lemma {:induction false} SurplusAgentEndIsTaken(first: string, surplus: string)
    ensures var es := EndedTwice(first, surplus);
            && Run(es).settled == map[0 := Resolved(first), 1 := Resolved(surplus)]
            && Orderly(es) && !OwnAnswers(es) && !Disciplined(es)
  {
    var es := EndedTwice(first, surplus);
    var init := TwoPrompts(first) + [Continue];
    FirstAnswered(first);
    RunSnoc(TwoPrompts(first), Continue);
    RunSnoc(init, es[5]);
    assert es[..5] == init;
    assert Taken(es, 5) && es[5].line.request != Run(es[..5]).pending.value.id;
    assert Ends(es[3]) && Ends(es[5]) && es[3].line.request == es[5].line.request;
    EndedTwiceIsOrderly(first, surplus);
  }

  /** A surplus line does no harm where it finds nothing pending, so answers can be right without the discipline. */
  lemma {:induction false} SurplusMayBeDropped(first: string, surplus: string)
    ensures var es := TwoPrompts(first) + [StdoutLine(AgentEnd(1, Resolved(surplus)))];
            !Disciplined(es) && OwnAnswers(es) && Run(es) == Run(TwoPrompts(first))
  {
    var es := TwoPrompts(first) + [StdoutLine(AgentEnd(1, Resolved(surplus)))];
    FirstAnswered(first);
    RunSnoc(TwoPrompts(first), es[4]);
    assert es[..4] == TwoPrompts(first);
    assert Ends(es[3]) && Ends(es[4]) && es[3].line.request == es[4].line.request;
    forall k: nat | Taken(es, k) ensures es[k].line.request == Run(es[..k]).pending.value.id {
      assert k == 3;
      PendingNumber(es[..3]);
      assert es[..3] == TwoPrompts(first)[..3];
      assert |Run(es[..3]).written| == 1 by {
        LinesWriteNothing(es[..3], es[3]);
        assert es[..3] + [es[3]] == es[..4];
      }
    }
  }

  lemma {:induction false} LinesWriteNothing(es: seq<Event>, e: Event)
    requires e.StdoutLine?
    ensures Run(es + [e]).written == Run(es).written
  {
    RunSnoc(es, e);
  }

  lemma {:induction false} EndedTwiceIsOrderly(first: string, surplus: string)
    ensures Orderly(EndedTwice(first, surplus))
  {
    hide Step;
    var es := EndedTwice(first, surplus);
    FirstAnswered(first);
    forall k | 0 <= k <= |es| ensures |AgentEnds(es[..k])| <= |Run(es[..k]).written| {
      if k <= 3 {
        EndsBefore(es, k);
      } else {
        EndsBefore(es, 3);
        WrittenAt(first, surplus, k);
      }
    }
  }

  lemma {:induction false} EndsBefore(es: seq<Event>, k: nat)
    requires k <= |es| && forall i :: 0 <= i < k ==> !Ends(es[i])
    ensures AgentEnds(es[..k]) == []
  {
    if k == 0 {
    } else {
      EndsBefore(es, k - 1);
      assert es[..k][..k - 1] == es[..k - 1];
    }
  }

  lemma {:induction false} WrittenAt(first: string, surplus: string, k: nat)
    requires 4 <= k <= 6
    ensures var es := EndedTwice(first, surplus);
            && |Run(es[..k]).written| == (if k == 4 then 1 else 2)
            && |AgentEnds(es[..k])| == (if k == 6 then 2 else 1)
  {
    var es := EndedTwice(first, surplus);
    EndsBefore(es, 3);
    FirstAnswered(first);
    assert es[..4] == TwoPrompts(first) && es[..4][..3] == es[..3];
    assert es[..5] == TwoPrompts(first) + [Continue] && es[..5][..4] == es[..4];
    assert es[..6] == es && es[..6][..5] == es[..5];
    assert AgentEnds(es[..4]) == [Resolved(first)];
    assert AgentEnds(es[..5]) == AgentEnds(es[..4]);
    assert AgentEnds(es[..6]) == AgentEnds(es[..5]) + [Resolved(surplus)];
    RunSnoc(TwoPrompts(first), Continue);
    RunSnoc(es[..5], es[5]);
    assert es == es[..5] + [es[5]];
  }

  lemma {:induction false} FirstAnswered(first: string)
    ensures Run(TwoPrompts(first)) == Client(false, None, 1, Sequence(2, 1, None, None), [0], map[0 := Resolved(first)])
  {
    var es := TwoPrompts(first);
    assert es[..3] == [PromptCalled, PromptCalled, Continue];
    assert es[..3][..2] == [PromptCalled, PromptCalled];
    assert es[..3][..2][..1] == [PromptCalled];
    assert Run([PromptCalled]) == Step(FRESH, PromptCalled);
    assert Run(es[..3][..2]) == Step(Run([PromptCalled]), PromptCalled);
    assert Run(es[..3]) == Step(Run(es[..3][..2]), Continue);
  }

  // ---------- no promise is lost ----------

  function Continues(n: nat): seq<Event> {
    if n == 0 then [] else Continues(n - 1) + [Continue]
  }

  lemma {:induction false} ContinueWhenClosed(s: Client)
    requires Inv(s) && s.closed && s.pending.None?
    ensures var s1 := RunNext(s);
            && s1.closed && s1.pending.None? && s1.sequence.called == s.sequence.called
            && s1.sequence.started == if s.sequence.started < s.sequence.called
                                      then s.sequence.started + 1 else s.sequence.started
  {
  }

  lemma {:induction false} ContinuesRun(es: seq<Event>, n: nat)
    requires Run(es).closed && Run(es).pending.None?
    ensures var s, s1 := Run(es), Run(es + Continues(n));
            && s1.closed && s1.pending.None? && s1.sequence.called == s.sequence.called
            && s1.sequence.started == if s.sequence.started + n <= s.sequence.called
                                      then s.sequence.started + n else s.sequence.called
  {
    hide Settle, RunNext;
    RunKeeps(es);
    if n == 0 {
      assert es + Continues(0) == es;
    } else {
      ContinuesRun(es, n - 1);
      assert es + Continues(n) == (es + Continues(n - 1)) + [Continue];
      RunSnoc(es + Continues(n - 1), Continue);
      RunKeeps(es + Continues(n - 1));
      ContinueWhenClosed(Run(es + Continues(n - 1)));
    }
  }

  /** When the process has closed and the remaining continuations have run, every call has its outcome. */
  lemma {:induction false} ClosingSettlesEveryCall(es: seq<Event>, c: nat)
    requires c < Run(es).sequence.called
    ensures c in Run(es + [ProcessClosed] + Continues(Run(es).sequence.called)).settled
  {
    var closed := es + [ProcessClosed];
    RunSnoc(es, ProcessClosed);
    RunKeeps(es);
    RunKeeps(closed);
    ContinuesRun(closed, Run(es).sequence.called);
    RunKeeps(closed + Continues(Run(es).sequence.called));
  }
}
