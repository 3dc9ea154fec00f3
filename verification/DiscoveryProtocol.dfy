/** The single-flight cache of model discovery: calls interleave at every `await`. */
module DiscoveryProtocol {
  import opened Options

  /** The cache key; the refresh interval, in seconds, is one of its parts. */
  datatype Key = Key(settings: string, refreshIntervalSeconds: nat)

  type Models = seq<string>

  datatype Entry = Entry(expiresAt: int, value: Option<Models>, inFlight: Option<nat>)

  datatype Status = Running | Fulfilled(models: Models) | Failed

  /** One discovery promise and the number of the call that created it.  `resumed` says whether that call has gone
      on past its `await`. */
  datatype Discovery = Discovery(key: Key, startedAt: int, caller: nat, status: Status, resumed: bool)

  /** What a call did before its first `await`. */
  datatype Call =
    | Hit(key: Key, at: int, models: Models)
    | Joined(discovery: nat)
    | Initiated(discovery: nat)
    | ClientFailed

  datatype Result = Returned(models: Models) | Rejects

  /** `results` says how the promises handed out by the calls have ended, by the number of the call. */
  datatype State = State(
    cache: map<Key, Entry>,
    discoveries: seq<Discovery>,
    calls: seq<Call>,
    results: map<nat, Result>,
    hasLogged: bool,
    warnings: nat)

  const START: State := State(map[], [], [], map[], false, 0)

  datatype Event =
    | Called(key: Key, now: int, clientOk: bool)
    | Settled(discovery: nat, models: Option<Models>)
    | Resumed(discovery: nat)

  function ExpiresAt(d: Discovery): int {
    d.startedAt + d.key.refreshIntervalSeconds * 1000
  }

  // ---------- the steps ----------

  function Initiate(s: State, key: Key, now: int): State {
    var d := Discovery(key, now, |s.calls|, Running, false);
    s.(discoveries := s.discoveries + [d],
       calls := s.calls + [Initiated(|s.discoveries|)],
       cache := if key.refreshIntervalSeconds > 0 then
                  s.cache[key := Entry(ExpiresAt(d), None, Some(|s.discoveries|))]
                else s.cache)
  }

  /** A promise that was returned ends with the one it was. */
  function Outcome(status: Status): Option<Result> {
    match status
    case Running => None
    case Fulfilled(models) => Some(Returned(models))
    case Failed => Some(Rejects)
  }

  function Join(s: State, i: nat): State {
    var outcome := if i < |s.discoveries| then Outcome(s.discoveries[i].status) else None;
    s.(calls := s.calls + [Joined(i)],
       results := if outcome.Some? then s.results[|s.calls| := outcome.value] else s.results)
  }

  function CallStep(s: State, key: Key, now: int, clientOk: bool): State {
    if key.refreshIntervalSeconds > 0 && key in s.cache
       && s.cache[key].value.Some? && s.cache[key].expiresAt > now then
      s.(calls := s.calls + [Hit(key, now, s.cache[key].value.value)],
         results := s.results[|s.calls| := Returned(s.cache[key].value.value)])
    else if key.refreshIntervalSeconds > 0 && key in s.cache && s.cache[key].inFlight.Some? then
      Join(s, s.cache[key].inFlight.value)
    else if !clientOk then
      s.(calls := s.calls + [ClientFailed], results := s.results[|s.calls| := Rejects])
    else
      Initiate(s, key, now)
  }

  /** The answer to all calls that joined discovery `i`. */
  function Answers(calls: seq<Call>, i: nat, result: Result): map<nat, Result> {
    map k: nat | k < |calls| && calls[k] == Joined(i) :: result
  }

  function SettleStep(s: State, i: nat, models: Option<Models>): State {
    if i < |s.discoveries| && s.discoveries[i].status.Running? then
      var status := if models.Some? then Fulfilled(models.value) else Failed;
      s.(discoveries := s.discoveries[i := s.discoveries[i].(status := status)],
         results := s.results + Answers(s.calls, i, if models.Some? then Returned(models.value) else Rejects))
    else s
  }

  /** The initiating call goes on: it replaces its entry by the value and returns it, or deletes the entry, warns
      once and returns nothing. */
  function ResumeStep(s: State, i: nat): State {
    if i >= |s.discoveries| || s.discoveries[i].status.Running? || s.discoveries[i].resumed then
      s
    else
      var d := s.discoveries[i];
      var s1 := s.(discoveries := s.discoveries[i := d.(resumed := true)]);
      match d.status
      case Fulfilled(models) =>
        s1.(cache := if d.key.refreshIntervalSeconds > 0 then s.cache[d.key := Entry(ExpiresAt(d), Some(models), None)]
                     else s.cache,
            results := s.results[d.caller := Returned(models)])
      case _ =>
        s1.(cache := if d.key.refreshIntervalSeconds > 0 then s.cache - {d.key} else s.cache,
            results := s.results[d.caller := Returned([])],
            hasLogged := true,
            warnings := if s.hasLogged then s.warnings else s.warnings + 1)
  }

  function Step(s: State, e: Event): State {
    match e
    case Called(key, now, clientOk) => CallStep(s, key, now, clientOk)
    case Settled(i, models) => SettleStep(s, i, models)
    case Resumed(i) => ResumeStep(s, i)
  }

  function Run(es: seq<Event>): State {
    if es == [] then START else Step(Run(es[..|es| - 1]), es[|es| - 1])
  }

  // ---------- the invariant ----------

  predicate InFlight(s: State, i: nat) {
    i < |s.discoveries| && !s.discoveries[i].resumed
  }

  /** Whoever is in flight under a caching key owns the entry of that key. */
  ghost predicate Owns(s: State) {
    forall i: nat :: InFlight(s, i) && s.discoveries[i].key.refreshIntervalSeconds > 0 ==>
      var d := s.discoveries[i];
      d.key in s.cache && s.cache[d.key] == Entry(ExpiresAt(d), None, Some(i))
  }

  ghost predicate IsSource(s: State, key: Key, models: Models, i: nat) {
    && i < |s.discoveries| && s.discoveries[i].key == key
    && s.discoveries[i].status == Fulfilled(models) && s.discoveries[i].resumed
  }

  /** Every entry is either the mark of a discovery in flight or the value of one that succeeded. */
  ghost predicate EntryExplained(s: State, key: Key) {
    key in s.cache && key.refreshIntervalSeconds > 0 &&
    match s.cache[key]
    case Entry(_, None, Some(i)) => InFlight(s, i) && s.discoveries[i].key == key
    case Entry(at, Some(models), None) =>
      exists i: nat :: IsSource(s, key, models, i) && at == ExpiresAt(s.discoveries[i])
    case _ => false
  }

  ghost predicate CallExplained(s: State, c: Call) {
    match c
    case Hit(key, at, models) => exists i: nat :: IsSource(s, key, models, i) && at < ExpiresAt(s.discoveries[i])
    case Joined(i) => i < |s.discoveries| && s.discoveries[i].key.refreshIntervalSeconds > 0
    case Initiated(i) => i < |s.discoveries|
    case ClientFailed => true
  }

  ghost predicate Inv(s: State) {
    && Owns(s)
    && (forall key :: key in s.cache ==> EntryExplained(s, key))
    && (forall k :: 0 <= k < |s.calls| ==> CallExplained(s, s.calls[k]))
    && (forall i :: 0 <= i < |s.discoveries| && s.discoveries[i].resumed ==> !s.discoveries[i].status.Running?)
    && s.warnings == if s.hasLogged then 1 else 0
  }

  /** Discoveries are only added, and each keeps its key and start; sources stay sources. */
  ghost predicate Grows(s: State, s1: State) {
    && |s.discoveries| <= |s1.discoveries|
    && forall i :: 0 <= i < |s.discoveries| ==>
         var d, d1 := s.discoveries[i], s1.discoveries[i];
         && d1.key == d.key && d1.startedAt == d.startedAt && d1.caller == d.caller
         && (!d.status.Running? ==> d1.status == d.status)
         && (d.resumed ==> d1.resumed)
  }

  lemma {:induction false} StepGrows(s: State, e: Event)
    ensures Grows(s, Step(s, e))
  {
  }

  lemma {:induction false} SourceStays(s: State, s1: State, key: Key, models: Models, i: nat)
    requires Grows(s, s1) && IsSource(s, key, models, i)
    ensures IsSource(s1, key, models, i) && ExpiresAt(s1.discoveries[i]) == ExpiresAt(s.discoveries[i])
  {
  }

  lemma {:induction false} CallStays(s: State, s1: State, c: Call)
    requires Grows(s, s1) && CallExplained(s, c)
    ensures CallExplained(s1, c)
  {
    if c.Hit? {
      var i: nat :| IsSource(s, c.key, c.models, i) && c.at < ExpiresAt(s.discoveries[i]);
      SourceStays(s, s1, c.key, c.models, i);
    }
  }

  lemma {:induction false} EntryStays(s: State, s1: State, key: Key)
    requires Grows(s, s1) && EntryExplained(s, key)
    requires key in s1.cache && s1.cache[key] == s.cache[key]
    requires s.cache[key].inFlight.Some? && InFlight(s, s.cache[key].inFlight.value)
             ==> InFlight(s1, s.cache[key].inFlight.value)
    ensures EntryExplained(s1, key)
  {
    match s.cache[key]
    case Entry(at, Some(models), None) =>
      var i: nat :| IsSource(s, key, models, i) && at == ExpiresAt(s.discoveries[i]);
      SourceStays(s, s1, key, models, i);
    case _ =>
  }

  /** A call either reads the cache, joins, or is the only one to start something under its key. */
  lemma {:induction false} CallKeeps(s: State, key: Key, now: int, clientOk: bool)
    requires Inv(s)
    ensures Inv(CallStep(s, key, now, clientOk))
  {
    hide EntryExplained, CallExplained, Grows, IsSource;
    var s1 := CallStep(s, key, now, clientOk);
    StepGrows(s, Called(key, now, clientOk));
    NewCallExplained(s, key, now, clientOk);
    forall k | 0 <= k < |s1.calls| ensures CallExplained(s1, s1.calls[k]) {
      if k < |s.calls| {
        CallStays(s, s1, s.calls[k]);
      }
    }
    forall k | k in s1.cache ensures EntryExplained(s1, k) {
      if k in s.cache && s1.cache[k] == s.cache[k] {
        EntryStays(s, s1, k);
      } else {
        NewEntryExplained(s, key, now);
      }
    }
    OwnsAfterCall(s, key, now, clientOk);
  }

  lemma {:induction false} OwnsAfterCall(s: State, key: Key, now: int, clientOk: bool)
    requires Owns(s)
    ensures Owns(CallStep(s, key, now, clientOk))
  {
  }

  lemma {:induction false} NewCallExplained(s: State, key: Key, now: int, clientOk: bool)
    requires Inv(s)
    ensures var s1 := CallStep(s, key, now, clientOk);
            |s1.calls| == |s.calls| + 1 && s1.calls[..|s.calls|] == s.calls
            && CallExplained(s1, s1.calls[|s.calls|])
  {
    hide Owns;
    if key in s.cache {
      assert EntryExplained(s, key);
    }
  }

  lemma {:induction false} NewEntryExplained(s: State, key: Key, now: int)
    requires key.refreshIntervalSeconds > 0
    ensures EntryExplained(Initiate(s, key, now), key)
  {
  }

  lemma {:induction false} SettleKeeps(s: State, i: nat, models: Option<Models>)
    requires Inv(s)
    ensures Inv(SettleStep(s, i, models))
  {
    hide EntryExplained, CallExplained, Grows, IsSource;
    var s1 := SettleStep(s, i, models);
    StepGrows(s, Settled(i, models));
    forall k | 0 <= k < |s1.calls| ensures CallExplained(s1, s1.calls[k]) {
      CallStays(s, s1, s.calls[k]);
    }
    forall k | k in s1.cache ensures EntryExplained(s1, k) {
      EntryStays(s, s1, k);
    }
  }

  /** The entry that the resuming call replaces or deletes is its own. */
  lemma {:induction false} ResumeKeeps(s: State, i: nat)
    requires Inv(s)
    ensures Inv(ResumeStep(s, i))
  {
    hide EntryExplained, CallExplained, Grows, IsSource;
    var s1 := ResumeStep(s, i);
    StepGrows(s, Resumed(i));
    forall k | 0 <= k < |s1.calls| ensures CallExplained(s1, s1.calls[k]) {
      CallStays(s, s1, s.calls[k]);
    }
    forall k | k in s1.cache ensures EntryExplained(s1, k) {
      if k in s.cache && s1.cache[k] == s.cache[k] && (InFlight(s, i) ==> s.discoveries[i].key != k) {
        OtherKey(s, k, i);
        EntryStays(s, s1, k);
      } else {
        ResumedEntry(s, i, k);
      }
    }
    OwnsAfterResume(s, i);
  }

  lemma {:induction false} OwnsAfterResume(s: State, i: nat)
    requires Owns(s)
    ensures Owns(ResumeStep(s, i))
  {
    var s1 := ResumeStep(s, i);
    forall j: nat | InFlight(s1, j) ensures InFlight(s, j) && s1.discoveries[j] == s.discoveries[j] {
    }
  }

  lemma {:induction false} OtherKey(s: State, k: Key, i: nat)
    requires EntryExplained(s, k) && (InFlight(s, i) ==> s.discoveries[i].key != k)
    ensures s.cache[k].inFlight.Some? && InFlight(s, s.cache[k].inFlight.value)
            ==> InFlight(ResumeStep(s, i), s.cache[k].inFlight.value)
  {
  }

  lemma {:induction false} ResumedEntry(s: State, i: nat, k: Key)
    requires Owns(s) && (k in s.cache ==> EntryExplained(s, k)) && InFlight(s, i)
    requires k in ResumeStep(s, i).cache && s.discoveries[i].key == k
    ensures EntryExplained(ResumeStep(s, i), k)
  {
    var s1 := ResumeStep(s, i);
    if s.discoveries[i].status.Fulfilled? && k.refreshIntervalSeconds > 0 {
      assert IsSource(s1, k, s.discoveries[i].status.models, i);
    }
  }

  lemma {:induction false} RunKeeps(es: seq<Event>)
    ensures Inv(Run(es))
  {
    hide EntryExplained, CallExplained, CallStep, SettleStep, ResumeStep;
    if es == [] {
    } else {
      RunKeeps(es[..|es| - 1]);
      match es[|es| - 1]
      case Called(key, now, clientOk) => CallKeeps(Run(es[..|es| - 1]), key, now, clientOk);
      case Settled(i, models) => SettleKeeps(Run(es[..|es| - 1]), i, models);
      case Resumed(i) => ResumeKeeps(Run(es[..|es| - 1]), i);
    }
  }

  lemma {:induction false} RunSnoc(es: seq<Event>, e: Event)
    ensures Run(es + [e]) == Step(Run(es), e)
  {
    assert (es + [e])[..|es|] == es;
  }

  // ---------- the last discovery of a key decides its entry ----------

  ghost predicate IsLast(s: State, i: nat) {
    && i < |s.discoveries| && s.discoveries[i].key.refreshIntervalSeconds > 0
    && forall j :: i < j < |s.discoveries| ==> s.discoveries[j].key != s.discoveries[i].key
  }

  ghost predicate Decides(s: State, i: nat)
    requires i < |s.discoveries|
  {
    var d := s.discoveries[i];
    match d.status
    case Fulfilled(models) => d.resumed ==>
      d.key in s.cache && s.cache[d.key] == Entry(ExpiresAt(d), Some(models), None)
    case _ => d.resumed ==> d.key !in s.cache
  }

  /** `j` is the next discovery of the same caching key after `i`. */
  ghost predicate Successive(s: State, i: nat, j: nat) {
    && i < j < |s.discoveries| && s.discoveries[i].key == s.discoveries[j].key
    && s.discoveries[i].key.refreshIntervalSeconds > 0
    && forall k :: i < k < j ==> s.discoveries[k].key != s.discoveries[i].key
  }

  ghost predicate Spaced(s: State) {
    && (forall i: nat :: IsLast(s, i) ==> Decides(s, i))
    && (forall i: nat, j: nat :: Successive(s, i, j) ==> s.discoveries[i].resumed)
    && (forall i: nat, j: nat :: Successive(s, i, j) && s.discoveries[i].status.Fulfilled?
          ==> ExpiresAt(s.discoveries[i]) <= s.discoveries[j].startedAt)
  }

  lemma {:induction false} InitiateSpaced(s: State, key: Key, now: int)
    requires Spaced(s) && Owns(s)
    requires key.refreshIntervalSeconds > 0 && key in s.cache ==>
               s.cache[key].inFlight.None? && (s.cache[key].value.Some? ==> s.cache[key].expiresAt <= now)
    ensures Spaced(Initiate(s, key, now))
  {
    var s1 := Initiate(s, key, now);
    var n := |s.discoveries|;
    forall i: nat | IsLast(s1, i) ensures Decides(s1, i) {
      if i < n {
        assert s1.discoveries[n].key != s1.discoveries[i].key;
        assert forall j :: i < j < n ==> s1.discoveries[j] == s.discoveries[j];
        assert IsLast(s, i);
      }
    }
    forall i: nat, j: nat | Successive(s1, i, j)
      ensures s1.discoveries[i].resumed
      ensures s1.discoveries[i].status.Fulfilled? ==> ExpiresAt(s1.discoveries[i]) <= s1.discoveries[j].startedAt
    {
      assert forall k :: i < k < j ==> s1.discoveries[k] == s.discoveries[k];
      if j < n {
        assert Successive(s, i, j);
      } else {
        assert IsLast(s, i);
        assert !InFlight(s, i);
      }
    }
  }

  /** Settling and resuming change no key, so the same discoveries follow each other. */
  lemma {:induction false} SameOrder(s: State, s1: State)
    requires Grows(s, s1) && |s1.discoveries| == |s.discoveries|
    ensures forall i: nat :: IsLast(s1, i) <==> IsLast(s, i)
    ensures forall i: nat, j: nat :: Successive(s1, i, j) <==> Successive(s, i, j)
  {
  }

  lemma {:induction false} SettleSpaced(s: State, i: nat, models: Option<Models>)
    requires Spaced(s) && Inv(s)
    ensures Spaced(SettleStep(s, i, models))
  {
    hide EntryExplained, CallExplained, Owns;
    var s1 := SettleStep(s, i, models);
    StepGrows(s, Settled(i, models));
    SameOrder(s, s1);
    hide IsLast, Successive, Grows;
    forall j: nat | IsLast(s1, j) ensures j < |s1.discoveries| && Decides(s1, j) {
      LastInRange(s1, j);
      assert Decides(s, j);
    }
    forall j: nat, k: nat | Successive(s1, j, k)
      ensures j < k < |s1.discoveries| && s1.discoveries[j].resumed
      ensures s1.discoveries[j].status.Fulfilled? ==> ExpiresAt(s1.discoveries[j]) <= s1.discoveries[k].startedAt
    {
      SuccessiveInRange(s, j, k);
    }
  }

  lemma {:induction false} LastInRange(s: State, i: nat)
    requires IsLast(s, i)
    ensures i < |s.discoveries| && s.discoveries[i].key.refreshIntervalSeconds > 0
  {
  }

  lemma {:induction false} SuccessiveInRange(s: State, i: nat, j: nat)
    requires Successive(s, i, j)
    ensures i < j < |s.discoveries|
  {
  }

  lemma {:induction false} ResumeSpaced(s: State, i: nat)
    requires Spaced(s) && Inv(s)
    ensures Spaced(ResumeStep(s, i))
  {
    hide EntryExplained, CallExplained;
    var s1 := ResumeStep(s, i);
    StepGrows(s, Resumed(i));
    SameOrder(s, s1);
    hide Successive, Grows;
    forall j: nat | IsLast(s1, j) ensures j < |s1.discoveries| && Decides(s1, j) {
      LastInRange(s1, j);
      assert Decides(s, j);
      if InFlight(s, i) && i != j && s.discoveries[i].key == s.discoveries[j].key {
        LastIsResumedLast(s, i, j);
      }
    }
    forall j: nat, k: nat | Successive(s1, j, k)
      ensures j < k < |s1.discoveries| && s1.discoveries[j].resumed
      ensures s1.discoveries[j].status.Fulfilled? ==> ExpiresAt(s1.discoveries[j]) <= s1.discoveries[k].startedAt
    {
      SuccessiveInRange(s, j, k);
    }
  }

  /** Only the last discovery of a key can still be in flight. */
  lemma {:induction false} LastIsResumedLast(s: State, i: nat, j: nat)
    requires Spaced(s) && InFlight(s, i) && IsLast(s, j) && s.discoveries[i].key == s.discoveries[j].key
    ensures i == j
  {
    if i < j {
      var k := NextOf(s, i, j);
      NotLast(s, i, k);
    }
  }

  lemma {:induction false} NotLast(s: State, i: nat, k: nat)
    requires Spaced(s) && Successive(s, i, k)
    ensures !InFlight(s, i)
  {
  }

  lemma {:induction false} NextOf(s: State, i: nat, j: nat) returns (k: nat)
    requires i < j < |s.discoveries| && s.discoveries[i].key == s.discoveries[j].key
    requires s.discoveries[i].key.refreshIntervalSeconds > 0
    ensures Successive(s, i, k)
  {
    k := i + 1;
    while s.discoveries[k].key != s.discoveries[i].key
      invariant i < k <= j
      invariant forall m :: i < m < k ==> s.discoveries[m].key != s.discoveries[i].key
      decreases j - k
    {
      k := k + 1;
    }
  }

  lemma {:induction false} RunSpaced(es: seq<Event>)
    ensures Spaced(Run(es))
  {
    if es == [] {
    } else {
      var s := Run(es[..|es| - 1]);
      RunSpaced(es[..|es| - 1]);
      RunKeeps(es[..|es| - 1]);
      StepSpaced(s, es[|es| - 1]);
    }
  }

  lemma {:induction false} StepSpaced(s: State, e: Event)
    requires Spaced(s) && Inv(s)
    ensures Spaced(Step(s, e))
  {
    hide Spaced, Inv, SettleStep, ResumeStep;
    match e
    case Called(key, now, clientOk) =>
      var s1 := CallStep(s, key, now, clientOk);
      if |s1.discoveries| > |s.discoveries| {
        UnfoldInv(s);
        InitiateSpaced(s, key, now);
      } else {
        SpacedIgnoresCalls(s, s1);
      }
    case Settled(i, models) => SettleSpaced(s, i, models);
    case Resumed(i) => ResumeSpaced(s, i);
  }

  lemma {:induction false} UnfoldInv(s: State)
    requires Inv(s)
    ensures Owns(s)
  {
  }

  lemma {:induction false} SpacedIgnoresCalls(s: State, s1: State)
    requires Spaced(s) && s1 == s.(calls := s1.calls, results := s1.results)
    ensures Spaced(s1)
  {
    assert forall i: nat :: IsLast(s1, i) <==> IsLast(s, i);
    assert forall i: nat, j: nat :: Successive(s1, i, j) <==> Successive(s, i, j);
    assert forall i: nat :: i < |s.discoveries| ==> (Decides(s1, i) <==> Decides(s, i));
  }

  // ---------- whole runs ----------

  /** Under one caching key at most one discovery is in flight. */
  lemma {:induction false} SingleFlight(es: seq<Event>, i: nat, j: nat)
    requires InFlight(Run(es), i) && InFlight(Run(es), j)
    requires Run(es).discoveries[i].key == Run(es).discoveries[j].key
    requires Run(es).discoveries[i].key.refreshIntervalSeconds > 0
    ensures i == j
  {
    RunKeeps(es);
  }

  /** A call made meanwhile starts nothing: it joins, and that is all that happens. */
  lemma {:induction false} JoinsWhileInFlight(es: seq<Event>, i: nat, now: int, clientOk: bool)
    requires InFlight(Run(es), i) && Run(es).discoveries[i].key.refreshIntervalSeconds > 0
    ensures var s := Run(es);
            Run(es + [Called(s.discoveries[i].key, now, clientOk)]) == Join(s, i)
  {
    RunKeeps(es);
    RunSnoc(es, Called(Run(es).discoveries[i].key, now, clientOk));
  }

  /** While discovery `i` is in flight its mark stays in the cache until its own initiator resumes; so a
      failing run can only delete its own mark, never the value of another run. */
  lemma {:induction false} OnlyInitiatorTouches(es: seq<Event>, e: Event, i: nat)
    requires InFlight(Run(es), i) && Run(es).discoveries[i].key.refreshIntervalSeconds > 0
    ensures OwnMarkOnly(Run(es), Run(es + [e]), e, i)
  {
    hide Run, Inv, OwnMarkOnly;
    RunKeeps(es);
    RunSnoc(es, e);
    StepOwnMarkOnly(Run(es), e, i);
  }

  ghost predicate OwnMarkOnly(s: State, s1: State, e: Event, i: nat)
    requires i < |s.discoveries|
  {
    var key := s.discoveries[i].key;
    && key in s.cache && s.cache[key].inFlight == Some(i) && s.cache[key].value.None?
    && (e != Resumed(i) ==> key in s1.cache && s1.cache[key] == s.cache[key])
    && (e == Resumed(i) ==> forall k :: k in s.cache && k != key ==> k in s1.cache && s1.cache[k] == s.cache[k])
  }

  lemma {:induction false} StepOwnMarkOnly(s: State, e: Event, i: nat)
    requires Inv(s) && InFlight(s, i) && s.discoveries[i].key.refreshIntervalSeconds > 0
    ensures OwnMarkOnly(s, Step(s, e), e, i)
  {
    hide CallExplained, EntryExplained;
    var d := s.discoveries[i];
    assert s.cache[d.key] == Entry(ExpiresAt(d), None, Some(i));
    if e.Resumed? && InFlight(s, e.discovery) {
      assert s.discoveries[e.discovery].key == d.key ==> e.discovery == i;
    }
  }

  /** A value served from the cache came from a discovery of the same key that succeeded, and is served less than
      the refresh interval, in milliseconds, after that discovery's start. */
  lemma {:induction false} HitIsFresh(es: seq<Event>, k: nat)
    requires k < |Run(es).calls| && Run(es).calls[k].Hit?
    ensures var s := Run(es); var c := s.calls[k];
            exists i: nat ::
              && i < |s.discoveries| && s.discoveries[i].key == c.key && s.discoveries[i].resumed
              && s.discoveries[i].status == Fulfilled(c.models)
              && c.at < s.discoveries[i].startedAt + c.key.refreshIntervalSeconds * 1000
  {
    RunKeeps(es);
    var s := Run(es);
    var c := s.calls[k];
    assert CallExplained(s, c);
    var i: nat :| IsSource(s, c.key, c.models, i) && c.at < ExpiresAt(s.discoveries[i]);
    assert s.discoveries[i].key == c.key;
  }

  /** After a success the next call less than the interval after the start is served from the cache, a later one
      is not. */
  lemma {:induction false} SuccessServes(es: seq<Event>, i: nat, now: int, clientOk: bool)
    requires IsLast(Run(es), i) && Run(es).discoveries[i].resumed && Run(es).discoveries[i].status.Fulfilled?
    ensures var s := Run(es); var d := s.discoveries[i];
            var c := Run(es + [Called(d.key, now, clientOk)]).calls;
            && |c| == |s.calls| + 1
            && c[|s.calls|] == if now < d.startedAt + d.key.refreshIntervalSeconds * 1000 then Hit(d.key, now, d.status.models)
                               else if clientOk then Initiated(|s.discoveries|) else ClientFailed
  {
    RunSpaced(es);
    RunSnoc(es, Called(Run(es).discoveries[i].key, now, clientOk));
    assert Decides(Run(es), i);
  }

  /** After a failure nothing is left in the cache: the next call starts anew. */
  lemma {:induction false} FailureStartsAnew(es: seq<Event>, i: nat, now: int)
    requires IsLast(Run(es), i) && Run(es).discoveries[i].resumed && Run(es).discoveries[i].status.Failed?
    ensures var s := Run(es); var d := s.discoveries[i];
            && d.key !in s.cache
            && Run(es + [Called(d.key, now, true)]).calls == s.calls + [Initiated(|s.discoveries|)]
  {
    RunSpaced(es);
    RunSnoc(es, Called(Run(es).discoveries[i].key, now, true));
    assert Decides(Run(es), i);
  }

  /** A call for which no client can be made is rejected and leaves cache and discoveries as they are. */
  lemma {:induction false} ClientFailureIsHarmless(es: seq<Event>, key: Key, now: int)
    requires key !in Run(es).cache
    ensures var s, s1 := Run(es), Run(es + [Called(key, now, false)]);
            && s1 == s.(calls := s.calls + [ClientFailed], results := s.results[|s.calls| := Rejects])
  {
    RunSnoc(es, Called(key, now, false));
  }

  /** Two successive discoveries of a key never overlap, and after a success they start at least the
      refresh interval apart. */
  lemma {:induction false} DiscoveriesSpaced(es: seq<Event>, i: nat, j: nat)
    requires Successive(Run(es), i, j)
    ensures var s := Run(es); var d, d1 := s.discoveries[i], s.discoveries[j];
            && d.resumed
            && (d.status.Fulfilled? ==> d1.startedAt >= d.startedAt + d.key.refreshIntervalSeconds * 1000)
  {
    RunSpaced(es);
  }

  /** With a zero interval nothing is cached or shared. */
  lemma {:induction false} NoCachingWithoutInterval(es: seq<Event>, key: Key, now: int)
    requires key.refreshIntervalSeconds == 0
    ensures key !in Run(es).cache
    ensures var s, s1 := Run(es), Run(es + [Called(key, now, true)]);
            s1.calls == s.calls + [Initiated(|s.discoveries|)] && s1.cache == s.cache
  {
    RunKeeps(es);
    RunSnoc(es, Called(key, now, true));
    assert key in Run(es).cache ==> EntryExplained(Run(es), key);
  }

  ghost predicate SomeFailureResumed(s: State) {
    exists i :: 0 <= i < |s.discoveries| && s.discoveries[i].resumed && s.discoveries[i].status.Failed?
  }

  lemma {:induction false} StepLogs(s: State, e: Event)
    requires Inv(s) && (s.hasLogged <==> SomeFailureResumed(s))
    ensures Step(s, e).hasLogged <==> SomeFailureResumed(Step(s, e))
  {
    hide Owns, EntryExplained, CallExplained;
    var s1 := Step(s, e);
    StepGrows(s, e);
    if SomeFailureResumed(s) {
      var i :| 0 <= i < |s.discoveries| && s.discoveries[i].resumed && s.discoveries[i].status.Failed?;
      assert s1.discoveries[i].resumed && s1.discoveries[i].status.Failed?;
    }
    if SomeFailureResumed(s1) && !SomeFailureResumed(s) {
      var i :| 0 <= i < |s1.discoveries| && s1.discoveries[i].resumed && s1.discoveries[i].status.Failed?;
      assert i < |s.discoveries| && !s.discoveries[i].resumed;
    }
    if e.Resumed? && e.discovery < |s.discoveries| && InFlight(s, e.discovery) && s.discoveries[e.discovery].status.Failed? {
      assert s1.discoveries[e.discovery].resumed;
    }
  }

  /** One warning is logged in a run as soon as the call that started a failing discovery goes on, and no other. */
  lemma {:induction false} WarnsOnce(es: seq<Event>)
    ensures Run(es).warnings == if SomeFailureResumed(Run(es)) then 1 else 0
    ensures Run(es).hasLogged <==> SomeFailureResumed(Run(es))
  {
    RunKeeps(es);
    if es == [] {
    } else {
      WarnsOnce(es[..|es| - 1]);
      RunKeeps(es[..|es| - 1]);
      StepLogs(Run(es[..|es| - 1]), es[|es| - 1]);
    }
  }

  // ---------- what the callers get ----------

  /** How the promise of a call has ended, by what the call did. */
  function ResultOf(s: State, c: Call): Option<Result> {
    match c
    case Hit(_, _, models) => Some(Returned(models))
    case ClientFailed => Some(Rejects)
    case Joined(i) => if i < |s.discoveries| then Outcome(s.discoveries[i].status) else None
    case Initiated(i) =>
      if i >= |s.discoveries| || !s.discoveries[i].resumed then None else
      (match s.discoveries[i].status
       case Fulfilled(models) => Some(Returned(models))
       case _ => Some(Returned([])))
  }

  /** Every discovery was created by one call, and every initiating call created one. */
  ghost predicate Paired(s: State) {
    && (forall i :: 0 <= i < |s.discoveries| ==>
          s.discoveries[i].caller < |s.calls| && s.calls[s.discoveries[i].caller] == Initiated(i))
    && (forall k :: 0 <= k < |s.calls| && s.calls[k].Initiated? ==>
          s.calls[k].discovery < |s.discoveries| && s.discoveries[s.calls[k].discovery].caller == k)
  }

  /** What the steps have recorded for each call is what it should get. */
  ghost predicate Told(s: State) {
    && (forall k :: k in s.results ==> k < |s.calls|)
    && (forall k: nat :: k < |s.calls| ==> ResultOf(s, s.calls[k]) == if k in s.results then Some(s.results[k]) else None)
  }

  lemma {:induction false} InitiatePaired(s: State, key: Key, now: int)
    requires Paired(s)
    ensures Paired(Initiate(s, key, now))
  {
  }

  lemma {:induction false} PairedStays(s: State, s1: State)
    requires Paired(s) && Grows(s, s1) && |s1.discoveries| == |s.discoveries|
    requires s.calls <= s1.calls && forall k :: |s.calls| <= k < |s1.calls| ==> !s1.calls[k].Initiated?
    ensures Paired(s1)
  {
    forall k | 0 <= k < |s.calls| ensures s1.calls[k] == s.calls[k] {
    }
  }

  lemma {:induction false} StepPaired(s: State, e: Event)
    requires Paired(s)
    ensures Paired(Step(s, e))
  {
    var s1 := Step(s, e);
    StepGrows(s, e);
    hide Paired, Grows, Outcome, Answers;
    if |s1.discoveries| == |s.discoveries| {
      PairedStays(s, s1);
    } else {
      InitiatePaired(s, e.key, e.now);
    }
  }

  /** A call changes nothing for the calls before it. */
  lemma {:induction false} OldResultStays(s: State, key: Key, now: int, clientOk: bool, c: Call)
    requires CallExplained(s, c)
    ensures ResultOf(CallStep(s, key, now, clientOk), c) == ResultOf(s, c)
  {
    hide Outcome;
    var s1 := CallStep(s, key, now, clientOk);
    assert forall i :: 0 <= i < |s.discoveries| ==> s1.discoveries[i] == s.discoveries[i];
  }

  lemma {:induction false} NewResult(s: State, key: Key, now: int, clientOk: bool)
    requires forall k :: k in s.results ==> k < |s.calls|
    ensures var s1, k := CallStep(s, key, now, clientOk), |s.calls|;
            && |s1.calls| == k + 1 && s1.calls[..k] == s.calls
            && ResultOf(s1, s1.calls[k]) == (if k in s1.results then Some(s1.results[k]) else None)
            && forall m :: m != k ==> (m in s1.results <==> m in s.results) && (m in s.results ==> s1.results[m] == s.results[m])
  {
    hide Outcome;
  }

  lemma {:induction false} CallTold(s: State, key: Key, now: int, clientOk: bool)
    requires Inv(s) && Told(s)
    ensures Told(CallStep(s, key, now, clientOk))
  {
    var s1 := CallStep(s, key, now, clientOk);
    NewResult(s, key, now, clientOk);
    assert forall k :: 0 <= k < |s.calls| ==> CallExplained(s, s.calls[k]);
    hide Inv, CallExplained, ResultOf, CallStep;
    forall k: nat | k < |s.calls| ensures s1.calls[k] == s.calls[k] && ResultOf(s1, s1.calls[k]) == ResultOf(s, s.calls[k]) {
      assert s1.calls[k] == s1.calls[..|s.calls|][k];
      OldResultStays(s, key, now, clientOk, s.calls[k]);
    }
  }

  lemma {:induction false} SettleTold(s: State, i: nat, models: Option<Models>)
    requires Inv(s) && Told(s)
    ensures Told(SettleStep(s, i, models))
  {
    hide Owns, EntryExplained, CallExplained;
  }

  /** Only the initiator is answered when it resumes. */
  lemma {:induction false} ResumeAnswers(s: State, i: nat, k: nat)
    requires Paired(s) && k < |s.calls|
    requires ResultOf(s, s.calls[k]) == if k in s.results then Some(s.results[k]) else None
    ensures var s1 := ResumeStep(s, i);
            ResultOf(s1, s1.calls[k]) == if k in s1.results then Some(s1.results[k]) else None
  {
    hide Outcome;
    if i < |s.discoveries| {
      assert s.calls[s.discoveries[i].caller] == Initiated(i);
    }
  }

  lemma {:induction false} ResumeTold(s: State, i: nat)
    requires Told(s) && Paired(s)
    ensures Told(ResumeStep(s, i))
  {
    var s1 := ResumeStep(s, i);
    assert i < |s.discoveries| ==> s.discoveries[i].caller < |s.calls|;
    assert s1.calls == s.calls;
    forall k | k in s1.results ensures k < |s1.calls| {
    }
    hide ResultOf, ResumeStep, Paired;
    forall k: nat | k < |s.calls|
      ensures ResultOf(s1, s1.calls[k]) == if k in s1.results then Some(s1.results[k]) else None
    {
      ResumeAnswers(s, i, k);
    }
  }

  lemma {:induction false} RunTold(es: seq<Event>)
    ensures Told(Run(es)) && Paired(Run(es))
  {
    hide Inv, Told, Paired, CallStep, SettleStep, ResumeStep;
    if es == [] {
      StartTold();
    } else {
      var s := Run(es[..|es| - 1]);
      RunTold(es[..|es| - 1]);
      RunKeeps(es[..|es| - 1]);
      StepPaired(s, es[|es| - 1]);
      match es[|es| - 1]
      case Called(key, now, clientOk) => CallTold(s, key, now, clientOk);
      case Settled(i, models) => SettleTold(s, i, models);
      case Resumed(i) => ResumeTold(s, i);
    }
  }

  lemma {:induction false} StartTold()
    ensures Told(START) && Paired(START)
  {
  }

  /** In every run, what a call has been answered is decided by what became of the discovery it belongs to: a joiner
      gets the value or a rejection as soon as the discovery settles, its initiator the value or an empty list once
      it has resumed, a hit its value at once. */
  lemma {:induction false} CallsAreTold(es: seq<Event>, k: nat)
    requires k < |Run(es).calls|
    ensures var s := Run(es);
            ResultOf(s, s.calls[k]) == if k in s.results then Some(s.results[k]) else None
  {
    RunTold(es);
  }

  /** Whoever joined a discovery is answered as its initiator is exactly when the discovery succeeded: on failure
      the initiator returns an empty list while the joiners' promises are rejected. */
  lemma {:induction false} JoinersShareSuccess(es: seq<Event>, i: nat, k: nat)
    requires i < |Run(es).discoveries| && Run(es).discoveries[i].resumed
    requires k < |Run(es).calls| && Run(es).calls[k] == Joined(i)
    ensures var s := Run(es); var caller := s.discoveries[i].caller;
            && caller < |s.calls| && s.calls[caller] == Initiated(i) && caller in s.results && k in s.results
            && (s.results[k] == s.results[caller] <==> s.discoveries[i].status.Fulfilled?)
            && (s.discoveries[i].status.Failed? ==> s.results[k] == Rejects && s.results[caller] == Returned([]))
  {
    RunKeeps(es);
    RunTold(es);
  }

  lemma {:induction false} ResultStays(s: State, s1: State, c: Call)
    requires Inv(s) && Grows(s, s1) && ResultOf(s, c).Some?
    ensures ResultOf(s1, c) == ResultOf(s, c)
  {
  }

  lemma {:induction false} CallsStay(s: State, e: Event)
    ensures s.calls <= Step(s, e).calls
  {
  }

  /** Results are final: no later event changes what a call was answered. */
  lemma {:induction false} ResultsAreFinal(es: seq<Event>, more: seq<Event>, k: nat)
    requires k in Run(es).results
    ensures k in Run(es + more).results && Run(es + more).results[k] == Run(es).results[k]
  {
    hide Inv, Grows, ResultOf, Step;
    if more == [] {
      assert es + more == es;
    } else {
      var init, last := more[..|more| - 1], more[|more| - 1];
      var s := Run(es + init);
      ResultsAreFinal(es, init, k);
      assert es + more == (es + init) + [last];
      RunSnoc(es + init, last);
      RunKeeps(es + init);
      RunTold(es + init);
      RunTold(es + more);
      StepGrows(s, last);
      CallsStay(s, last);
      ResultStays(s, Run(es + more), s.calls[k]);
    }
  }
}
