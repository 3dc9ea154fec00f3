/** The client of the translation process: the handlers that update its fields. */
module RpcClient {
  import opened Options
  import opened RpcProtocol

  class PiRpcClient {
    var closed: bool
    var pending: Option<Pending>
    var requestCount: nat
    var sequence: Sequence
    /** What went to the standard input of the process. */
    var written: seq<nat>
    /** The ended promises that `prompt` handed out. */
    var settled: map<nat, Outcome>

    constructor ()
      ensures Snapshot() == FRESH
    {
      closed, pending, requestCount := false, None, 0;
      sequence, written, settled := Sequence(0, 0, None, None), [], map[];
    }

    ghost function Snapshot(): Client
      reads this
    {
      Client(closed, pending, requestCount, sequence, written, settled)
    }

    /** A promise settles at most once; if it belongs to the running continuation, that one ends too. */
    method SettlePromise(call: nat, outcome: Outcome)
      modifies this`settled, this`sequence
      ensures Snapshot() == Settle(old(Snapshot()), call, outcome)
    {
      if call in settled {
        return;
      }
      settled := settled[call := outcome];
      if sequence.active == Some(call) {
        sequence := sequence.(active := None);
      }
      if outcome.Rejected? && sequence.failure.None? {
        sequence := sequence.(failure := Some(outcome.error));
      }
    }

    method RejectPendingPrompt(error: string)
      modifies this`pending, this`settled, this`sequence
      ensures Snapshot() == RejectPending(old(Snapshot()), error)
    {
      var prompt := pending;
      pending := None;
      if prompt.Some? {
        SettlePromise(prompt.value.call, Rejected(error));
      }
    }

    /** The synchronous part of `prompt`: link a continuation into `sequence`. */
    method Prompt() returns (call: nat)
      modifies this`sequence
      ensures call == old(sequence.called)
      ensures Snapshot() == Step(old(Snapshot()), PromptCalled)
    {
      call := sequence.called;
      sequence := sequence.(called := sequence.called + 1);
    }

    /** The continuation of the next `prompt` call. */
    method ContinueSequence()
      modifies this
      ensures Snapshot() == Step(old(Snapshot()), Continue)
    {
      if sequence.active.Some? || sequence.started == sequence.called {
        return;
      }
      var call := sequence.started;
      sequence := sequence.(started := sequence.started + 1);
      if sequence.failure.Some? {
        SettlePromise(call, Rejected(sequence.failure.value));
        return;
      }
      if closed {
        SettlePromise(call, Rejected(UNAVAILABLE));
        return;
      }
      requestCount := requestCount + 1;
      sequence := sequence.(active := Some(call));
      pending := Some(Pending(requestCount, call, false));
      written := written + [call];
    }

    method HandleStdoutLine(line: Line)
      modifies this`pending, this`settled, this`sequence
      ensures Snapshot() == Step(old(Snapshot()), StdoutLine(line))
    {
      if pending.None? {
        return;
      }
      var prompt := pending.value;
      match line {
        case Noise =>
        case Response(id, success, error) =>
          if id != prompt.id {
            return;
          }
          if !success {
            pending := None;
            SettlePromise(prompt.call, Rejected(error));
            return;
          }
          pending := Some(prompt.(responseReceived := true));
        case AgentEnd(_, result) =>
          pending := None;
          SettlePromise(prompt.call, result);
      }
    }

    method Close()
      modifies this`closed
      ensures Snapshot() == Step(old(Snapshot()), CloseCalled)
    {
      if closed {
        return;
      }
      closed := true;
    }

    method OnTimer(id: nat)
      modifies this
      ensures Snapshot() == Step(old(Snapshot()), TimerFired(id))
    {
      if pending.Some? && pending.value.id == id {
        var call := pending.value.call;
        pending := None;
        Close();
        SettlePromise(call, Rejected(TIMED_OUT));
      }
    }

    method OnWriteError(id: nat, error: string)
      modifies this`pending, this`settled, this`sequence
      ensures Snapshot() == Step(old(Snapshot()), WriteFailed(id, error))
    {
      if pending.Some? && pending.value.id == id {
        pending := None;
      }
      if 1 <= id <= |written| {
        SettlePromise(written[id - 1], Rejected(error));
      }
    }

    method OnProcessError(error: string)
      modifies this`pending, this`settled, this`sequence
      ensures Snapshot() == Step(old(Snapshot()), ProcessError(error))
    {
      RejectPendingPrompt(error);
    }

    method OnProcessClose()
      modifies this
      ensures Snapshot() == Step(old(Snapshot()), ProcessClosed)
    {
      closed := true;
      RejectPendingPrompt(CLOSED);
    }
  }

  /** Any interleaving of the handlers is a run of the protocol, so everything proved of runs holds of
      the object. */
  method Drive(events: seq<Event>) returns (client: PiRpcClient)
    ensures fresh(client) && client.Snapshot() == Run(events)
  {
    client := new PiRpcClient();
    for k := 0 to |events|
      invariant fresh(client) && client.Snapshot() == Run(events[..k])
    {
      RunSnoc(events[..k], events[k]);
      assert events[..k + 1] == events[..k] + [events[k]];
      match events[k] {
        case PromptCalled => var _ := client.Prompt();
        case Continue => client.ContinueSequence();
        case StdoutLine(line) => client.HandleStdoutLine(line);
        case TimerFired(id) => client.OnTimer(id);
        case WriteFailed(id, error) => client.OnWriteError(id, error);
        case ProcessError(error) => client.OnProcessError(error);
        case ProcessClosed => client.OnProcessClose();
        case CloseCalled => client.Close();
      }
    }
    assert events[..|events|] == events;
  }
}
