/** Whole-run properties of the session oracle: history structure, allowance
    accounting, termination, finality, and refinement of the write-progress machine. */
module SessionRuns {
  import opened Bytes
  import opened Wire
  import opened Progress
  import opened Response
  import opened Session

  function Run(config: Config, s: Session.State, events: seq<Session.Event>): (t: Session.State)
    requires Configured(config) && Inv(config, s)
    ensures Inv(config, t)
    decreases |events|
  {
    if events == [] then s
    else
      NextInv(config, s, events[0]);
      Run(config, Next(config, s, events[0]).0, events[1..])
  }

  lemma {:induction false} RunAppend(config: Config, s: Session.State, a: seq<Session.Event>, b: seq<Session.Event>)
    requires Configured(config) && Inv(config, s)
    ensures Run(config, s, a + b) == Run(config, Run(config, s, a), b)
    decreases |a|
  {
    if a == [] {
      assert a + b == b;
    } else {
      hide Next, Inv, Configured;
      NextInv(config, s, a[0]);
      assert (a + b)[1..] == a[1..] + b;
      RunAppend(config, Next(config, s, a[0]).0, a[1..], b);
    }
  }

  lemma RunSnoc(config: Config, s: Session.State, events: seq<Session.Event>, event: Session.Event)
    requires Configured(config) && Inv(config, s)
    ensures Run(config, s, events + [event]) == Next(config, Run(config, s, events), event).0
  {
    hide Next, Inv, Configured;
    RunAppend(config, s, events, [event]);
    NextInv(config, Run(config, s, events), event);
    assert [event][1..] == [];
  }

  /** The write-progress state inside a session. */
  function Abstract(s: Session.State): Progress.State {
    Progress.State(s.history, s.pending)
  }

  /** The attempts a snapshot shows: the history, then the writes still in flight. */
  function AttemptsOf(s: Session.State): seq<Attempt> {
    Attempts(Abstract(s))
  }

  predicate Uniform(config: Config, block: seq<Attempt>, outcome: Outcome) {
    block == Marked(InFlight(config), outcome)
  }

  /** After any run, the attempts are one block of the configured locations per send:
      every block but the last was replayed, and the last is uniformly pending,
      replayed or globally rejected, or carries the decoded statuses. */
  lemma AttemptStructure(config: Config, events: seq<Session.Event>) returns (block: seq<Attempt>)
    requires Configured(config)
    ensures var s := Run(config, INITIAL, events);
            && (s.sends == 0 ==> AttemptsOf(s) == [] && block == [])
            && (s.sends > 0 ==>
                  && AttemptsOf(s) == Lost(config, s.sends - 1) + block
                  && (s.phase in [Ready, ReconnectCotp, ReconnectSetup] ==> Uniform(config, block, ReplayedUnknown))
                  && (s.phase == Awaiting ==> Uniform(config, block, Pending))
                  && (s.phase == Completed ==> Settled(config, block))
                  && (|| Uniform(config, block, Pending) || Uniform(config, block, ReplayedUnknown)
                      || Uniform(config, block, GlobalRejected) || Settled(config, block)))
            && (!config.write ==> AttemptsOf(s) == [])
  {
    InitialInv(config);
    hide Settled, Lost, Next, Configured;
    var s := Run(config, INITIAL, events);
    block := LastBlock(config, s);
    if !config.write {
      ReadsTrackNothing(config, s, block);
    }
  }

  /** `block` is what the last send left behind. */
  predicate LastBlockIs(config: Config, s: Session.State, block: seq<Attempt>) {
    if s.sends == 0 then AttemptsOf(s) == [] && block == []
    else AttemptsOf(s) == Lost(config, s.sends - 1) + block
  }

  lemma ReplayedBlock(config: Config, s: Session.State)
    requires AllReplayed(config, s)
    ensures LastBlockIs(config, s, if s.sends == 0 then [] else Marked(InFlight(config), ReplayedUnknown))
  {
    NothingPending(s);
    if s.sends > 0 {
      LostStep(config, s.sends);
    }
  }

  lemma RejectedBlock(config: Config, s: Session.State)
    requires LastRejected(config, s)
    ensures LastBlockIs(config, s, Marked(InFlight(config), GlobalRejected))
  {
    hide Lost;
    NothingPending(s);
  }

  lemma SettledBlock(config: Config, s: Session.State) returns (block: seq<Attempt>)
    requires LastSettled(config, s)
    ensures LastBlockIs(config, s, block) && Settled(config, block)
  {
    hide Lost, Settled;
    NothingPending(s);
    var cut := |s.history| - |InFlight(config)|;
    block := s.history[cut..];
    assert s.history == s.history[..cut] + block;
  }

  lemma LastBlock(config: Config, s: Session.State) returns (block: seq<Attempt>)
    requires Recorded(config, s)
    ensures LastBlockIs(config, s, block)
    ensures s.sends > 0 && s.phase in [Ready, ReconnectCotp, ReconnectSetup] ==> Uniform(config, block, ReplayedUnknown)
    ensures s.sends > 0 && s.phase == Awaiting ==> Uniform(config, block, Pending)
    ensures s.sends > 0 && s.phase == Completed ==> Settled(config, block)
    ensures s.sends > 0 ==>
              || Uniform(config, block, Pending) || Uniform(config, block, ReplayedUnknown)
              || Uniform(config, block, GlobalRejected) || Settled(config, block)
  {
    hide Settled, Lost, LastSettled, LastRejected, LastBlockIs, Marked;
    if s.phase == Completed {
      block := SettledBlock(config, s);
    } else if s.phase != Awaiting && AllReplayed(config, s) {
      block := if s.sends == 0 then [] else Marked(InFlight(config), ReplayedUnknown);
      ReplayedBlock(config, s);
    } else if LastInFlight(config, s) {
      block := Marked(InFlight(config), Pending);
      PendingBlock(config, s);
    } else if LastRejected(config, s) {
      block := Marked(InFlight(config), GlobalRejected);
      RejectedBlock(config, s);
    } else {
      block := SettledBlock(config, s);
    }
  }

  lemma PendingBlock(config: Config, s: Session.State)
    requires LastInFlight(config, s)
    ensures LastBlockIs(config, s, Marked(InFlight(config), Pending))
  {
    hide Lost;
  }

  lemma ReadsTrackNothing(config: Config, s: Session.State, block: seq<Attempt>)
    requires !config.write && LastBlockIs(config, s, block)
    requires s.sends > 0 ==>
               || Uniform(config, block, Pending) || Uniform(config, block, ReplayedUnknown)
               || Uniform(config, block, GlobalRejected) || Settled(config, block)
    ensures AttemptsOf(s) == []
  {
    if s.sends > 0 {
      LostReads(config, s.sends - 1);
      hide Lost;
      assert |LocationsOf(block)| == |block|;
      assert block == [];
    }
  }

  lemma NothingPending(s: Session.State)
    ensures s.pending == [] ==> AttemptsOf(s) == s.history
  {
    if s.pending == [] {
      assert Marked(s.pending, Pending) == [];
    }
  }

  lemma {:induction false} LostReads(config: Config, n: nat)
    ensures !config.write ==> Lost(config, n) == []
  {
    if n == 0 {
    } else {
      LostReads(config, n - 1);
    }
  }

  /** The statuses of the last response accepted in a run, continuing from `last`. */
  function LastAnswer(
    config: Config, s: Session.State, events: seq<Session.Event>, last: seq<Status>): seq<Status>
    requires Configured(config) && Inv(config, s)
    decreases |events|
  {
    if events == [] then last
    else
      NextInv(config, s, events[0]);
      var (t, result) := Next(config, s, events[0]);
      LastAnswer(config, t, events[1..],
                 if events[0].Responded? && result == Accept
                 then ResponseOf(QueryOf(config), events[0].pdu).statuses else last)
  }

  predicate Answered(config: Config, s: Session.State, last: seq<Status>) {
    s.phase == Completed ==>
      && s.sends > 0 && |last| == |InFlight(config)|
      && s.history == Lost(config, s.sends - 1) + Zip(InFlight(config), last)
  }

  lemma AnswerStep(config: Config, s: Session.State, event: Session.Event, last: seq<Status>)
    requires Configured(config) && Inv(config, s) && Answered(config, s, last)
    ensures var (t, result) := Next(config, s, event);
            Inv(config, t) &&
            Answered(config, t, if event.Responded? && result == Accept
                                then ResponseOf(QueryOf(config), event.pdu).statuses else last)
  {
    NextInv(config, s, event);
    CompletedByAnswer(config, s, event);
    hide Next, Inv, Configured, ResponseOf, Lost;
  }

  /** Only an accepted response completes an operation, recording its statuses. */
  lemma CompletedByAnswer(config: Config, s: Session.State, event: Session.Event)
    requires Configured(config) && Inv(config, s)
    ensures var (t, result) := Next(config, s, event);
            t.phase == Completed ==>
              if event.Responded? && result == Accept
              then Answered(config, t, ResponseOf(QueryOf(config), event.pdu).statuses)
              else t == s
  {
    hide Lost, Settled, Paid, Configured, ResponseOf;
    if event.Responded? && s.phase == Awaiting && ResponseOf(QueryOf(config), event.pdu).Accepted? {
      StatusCount(config, event.pdu);
      var statuses := ResponseOf(QueryOf(config), event.pdu).statuses;
      FinishSettles(config, s, statuses);
      if !config.write {
        FinishNothing(s, statuses);
      }
    }
  }

  /** A completed operation records exactly the statuses it was last answered with. */
  lemma {:induction false} CompletionRecordsAnswer(
    config: Config, s: Session.State, events: seq<Session.Event>, last: seq<Status>)
    requires Configured(config) && Inv(config, s) && Answered(config, s, last)
    ensures Answered(config, Run(config, s, events), LastAnswer(config, s, events, last))
    decreases |events|
  {
    if events == [] {
    } else {
      AnswerStep(config, s, events[0], last);
      hide Next, Inv, Configured, Answered;
      var (t, result) := Next(config, s, events[0]);
      CompletionRecordsAnswer(
        config, t, events[1..],
        if events[0].Responded? && result == Accept
        then ResponseOf(QueryOf(config), events[0].pdu).statuses else last);
    }
  }

  // --- finality ---

  predicate Over(s: Session.State) { s.phase in [Failed, Shut] }

  /** A failed or closed session never becomes active again: later events can only
      close it, and its allowance, sends and attempts are frozen. */
  lemma {:induction false} OverIsFinal(config: Config, s: Session.State, events: seq<Session.Event>)
    requires Configured(config) && Inv(config, s) && Over(s)
    ensures var t := Run(config, s, events);
            && Over(t) && (s.phase == Shut ==> t == s)
            && t == s.(phase := t.phase, lifecycle := t.lifecycle)
    decreases |events|
  {
    if events == [] {
    } else {
      NextInv(config, s, events[0]);
      OverStays(config, s, events[0]);
      hide Next, Inv, Configured;
      OverIsFinal(config, Next(config, s, events[0]).0, events[1..]);
    }
  }

  lemma OverStays(config: Config, s: Session.State, event: Session.Event)
    requires Configured(config) && Inv(config, s) && Over(s)
    ensures var t := Next(config, s, event).0;
            Over(t) && (s.phase == Shut ==> t == s) && t == s.(phase := t.phase, lifecycle := t.lifecycle)
    ensures s.phase == Failed && event != Disconnect ==> Next(config, s, event).0 == s
  {
    hide Recorded, Paid, Configured, ResponseOf, Finish, Fail;
  }

  // --- the replay allowance ---

  /** Permitted retries since the last accepted `Begin`, none before the first. */
  function Counted(n: Option<nat>, event: Session.Event, result: Result): Option<nat> {
    if event == Begin && result == Accept then Some(0)
    else if result == Retry(true) && n.Some? then Some(n.value + 1)
    else n
  }

  function Replays(config: Config, s: Session.State, events: seq<Session.Event>, n: Option<nat>): Option<nat>
    requires Configured(config) && Inv(config, s)
    decreases |events|
  {
    if events == [] then n
    else
      NextInv(config, s, events[0]);
      var (t, result) := Next(config, s, events[0]);
      Replays(config, t, events[1..], Counted(n, events[0], result))
  }

  /** Once an operation has begun, retries and what remains make up the allowance. */
  predicate Accounted(config: Config, s: Session.State, n: Option<nat>) {
    if n.Some? then s.phase != Idle && n.value + s.remaining == config.budget
    else s.phase in [Idle, Shut] && s.remaining == 0 && s.sends == 0
  }

  lemma AccountStep(config: Config, s: Session.State, event: Session.Event, n: Option<nat>)
    requires Configured(config) && Inv(config, s) && Accounted(config, s, n)
    ensures var (t, result) := Next(config, s, event);
            Accounted(config, t, Counted(n, event, result))
    ensures !MayReplay(config) && n in [None, Some(0)] ==>
              Counted(n, event, Next(config, s, event).1) in [None, Some(0)]
  {
    hide Recorded, Paid, Configured, Finish;
    if event.Responded? {
      NeverReplaysAnswers(config, s, event);
      hide Next;
    }
  }

  lemma {:induction false} ReplaysAccounted(
    config: Config, s: Session.State, events: seq<Session.Event>, n: Option<nat>)
    requires Configured(config) && Inv(config, s) && Accounted(config, s, n)
    ensures Accounted(config, Run(config, s, events), Replays(config, s, events, n))
    ensures !MayReplay(config) && n in [None, Some(0)] ==> Replays(config, s, events, n) in [None, Some(0)]
    decreases |events|
  {
    if events == [] {
    } else {
      NextInv(config, s, events[0]);
      AccountStep(config, s, events[0], n);
      hide Next, Inv, Configured, Accounted, MayReplay, Counted;
      var (t, result) := Next(config, s, events[0]);
      ReplaysAccounted(config, t, events[1..], Counted(n, events[0], result));
    }
  }

  /** Only a reported failure spends the allowance: codec errors are never transient. */
  lemma NeverReplaysAnswers(config: Config, s: Session.State, event: Session.Event)
    requires Configured(config) && Inv(config, s) && event.Responded?
    ensures Next(config, s, event).0.remaining == s.remaining
    ensures !Next(config, s, event).1.Retry?
    ensures Next(config, s, event).0.phase in [s.phase, Failed, Completed]
  {
    hide Recorded, Paid, Configured;
  }

  /** In every run, once an operation has begun and even after the session is closed:
      permitted retries and what remains make up the allowance, each send but the first
      was paid for by a retry, and a write without opt-in is sent once. */
  lemma AllowanceAccounted(config: Config, events: seq<Session.Event>)
    requires Configured(config)
    ensures var s, n := Run(config, INITIAL, events), Replays(config, INITIAL, events, None);
            if n.None? then s.sends == 0 && s.remaining == 0
            else
              && n.value + s.remaining == config.budget
              && s.sends <= n.value + 1
              && (!MayReplay(config) ==> n.value == 0 && s.sends <= 1)
  {
    InitialInv(config);
    ReplaysAccounted(config, INITIAL, events, None);
    hide Recorded, Configured, Next;
    assert Paid(config, Run(config, INITIAL, events));
  }

  // --- termination ---

  predicate Active(s: Session.State) { s.phase in [Ready, Awaiting, ReconnectCotp, ReconnectSetup] }

  function Rank(s: Session.State): nat {
    4 * s.remaining +
    match s.phase case ReconnectCotp => 3 case ReconnectSetup => 2 case Ready => 1 case _ => 0
  }

  /** While an operation is active, an event either changes nothing, ends the
      operation, or lowers its rank. */
  lemma RankDescends(config: Config, s: Session.State, event: Session.Event)
    requires Configured(config) && Inv(config, s) && Active(s)
    ensures var t := Next(config, s, event).0;
            t == s || !Active(t) || Rank(t) < Rank(s)
  {
    hide Recorded, Paid, Configured, Finish, FinishAll, ResponseOf;
  }

  /** State-changing events until the operation that is active in `s` ends. */
  function Changes(config: Config, s: Session.State, events: seq<Session.Event>): nat
    requires Configured(config) && Inv(config, s)
    decreases |events|
  {
    if events == [] || !Active(s) then 0
    else
      NextInv(config, s, events[0]);
      var t := Next(config, s, events[0]).0;
      (if t == s then 0 else 1) + Changes(config, t, events[1..])
  }

  lemma {:induction false} ChangesBounded(config: Config, s: Session.State, events: seq<Session.Event>)
    requires Configured(config) && Inv(config, s) && Active(s)
    ensures Changes(config, s, events) <= Rank(s) + 1
    decreases |events|
  {
    if events == [] {
    } else {
      NextInv(config, s, events[0]);
      RankDescends(config, s, events[0]);
      hide Next, Inv, Configured;
      var t := Next(config, s, events[0]).0;
      if Active(t) {
        ChangesBounded(config, t, events[1..]);
      }
    }
  }

  /** However the environment behaves, an accepted operation ends within
      `4 * budget + 2` state changes. */
  lemma OperationsEnd(config: Config, s: Session.State, events: seq<Session.Event>)
    requires Configured(config) && Inv(config, s) && Next(config, s, Begin).1 == Accept
    ensures var begun := Next(config, s, Begin).0;
            && Inv(config, begun) && Active(begun)
            && Changes(config, begun, events) <= 4 * config.budget + 2
  {
    NextInv(config, s, Begin);
    ChangesBounded(config, Next(config, s, Begin).0, events);
  }

  // --- refinement of the write-progress machine ---

  function ObservedFailure(config: Config, s: Session.State, kind: ErrorKind): seq<Progress.Event> {
    if !config.write || s.phase != Awaiting then []
    else if Permitted(config, s, kind) then [Replay]
    else if kind == PlcRejected then [GlobalReject]
    else []
  }

  /** What the write-progress machine sees of one session event. */
  function Observed(config: Config, s: Session.State, event: Session.Event): seq<Progress.Event>
    requires Configured(config) && Inv(config, s)
  {
    match event
    case Send =>
      if config.write && Next(config, s, event).1 == Accept then [Dispatch(config.locations)] else []
    case Error(kind) => if Fallible(s) then ObservedFailure(config, s, kind) else []
    case Responded(pdu) =>
      if s.phase != Awaiting then []
      else (match ResponseOf(QueryOf(config), pdu)
            case Rejected(kind) => ObservedFailure(config, s, kind)
            case Accepted(statuses) => if config.write then [Acknowledge(statuses)] else [])
    case _ => []
  }

  /** The write-progress log of a run since its last accepted `Begin`. */
  function Projection(
    config: Config, s: Session.State, log: seq<Progress.Event>, events: seq<Session.Event>): seq<Progress.Event>
    requires Configured(config) && Inv(config, s)
    decreases |events|
  {
    if events == [] then log
    else
      NextInv(config, s, events[0]);
      var (t, result) := Next(config, s, events[0]);
      Projection(config, t,
                 if events[0] == Begin && result == Accept then [] else log + Observed(config, s, events[0]),
                 events[1..])
  }

  /** What a failure does to the writes in flight is one step of that machine, or none. */
  lemma FailureStep(config: Config, s: Session.State, kind: ErrorKind)
    ensures var observed, t := ObservedFailure(config, s, kind), Fail(config, s, kind);
            if observed == [] then Abstract(t) == Abstract(s)
            else |observed| == 1 && Progress.Step(Abstract(s), observed[0]) == Some(Abstract(t))
  {
  }

  lemma FailureRefines(config: Config, s: Session.State, kind: ErrorKind, log: seq<Progress.Event>)
    requires Progress.Trace(log) == Some(Abstract(s))
    ensures Progress.Trace(log + ObservedFailure(config, s, kind)) == Some(Abstract(Fail(config, s, kind)))
  {
    FailureStep(config, s, kind);
    hide ObservedFailure, Fail, Progress.Trace, Progress.Step;
    var observed := ObservedFailure(config, s, kind);
    if observed == [] {
      assert log + observed == log;
    } else {
      assert observed == [observed[0]];
      Progress.TraceSnoc(log, observed[0]);
    }
  }

  lemma StepRefines(config: Config, s: Session.State, event: Session.Event, log: seq<Progress.Event>)
    requires Configured(config) && Inv(config, s) && Progress.Trace(log) == Some(Abstract(s))
    ensures !(event == Begin && Next(config, s, event).1 == Accept) ==>
              Progress.Trace(log + Observed(config, s, event)) == Some(Abstract(Next(config, s, event).0))
  {
    hide Lost, Settled, Paid, Fail, ObservedFailure, ResponseOf, RequestOf;
    assert log + [] == log;
    match event
    case Send =>
      if config.write && s.phase == Ready {
        Progress.TraceSnoc(log, Dispatch(config.locations));
      }
    case Error(kind) =>
      if Fallible(s) {
        FailureRefines(config, s, kind, log);
      }
    case Responded(pdu) =>
      if s.phase == Awaiting {
        match ResponseOf(QueryOf(config), pdu)
        case Rejected(kind) => FailureRefines(config, s, kind, log);
        case Accepted(statuses) =>
          StatusCount(config, pdu);
          if config.write {
            Progress.TraceSnoc(log, Acknowledge(statuses));
          }
      }
    case _ =>
  }

  lemma {:induction false} RunRefines(
    config: Config, s: Session.State, log: seq<Progress.Event>, events: seq<Session.Event>)
    requires Configured(config) && Inv(config, s) && Progress.Trace(log) == Some(Abstract(s))
    ensures Progress.Trace(Projection(config, s, log, events)) == Some(Abstract(Run(config, s, events)))
    decreases |events|
  {
    if events == [] {
    } else {
      NextInv(config, s, events[0]);
      StepRefines(config, s, events[0], log);
      var (t, result) := Next(config, s, events[0]);
      if events[0] == Begin && result == Accept {
        RunRefines(config, t, [], events[1..]);
      } else {
        RunRefines(config, t, log + Observed(config, s, events[0]), events[1..]);
      }
    }
  }

  /** Every session run is a run of the write-progress machine: its log is accepted,
      reports the same attempts, and the four outcome counts partition them. */
  lemma SessionRefinesProgress(config: Config, events: seq<Session.Event>)
    requires Configured(config)
    ensures var s, log := Run(config, INITIAL, events), Projection(config, INITIAL, [], events);
            && Progress.Trace(log).Some?
            && var report := ReportOf(Attempts(Progress.Trace(log).value));
               && report.attempts == AttemptsOf(s)
               && LocationsOf(AttemptsOf(s)) == Sent(log)
               && report.uncertain == |s.pending|
               && report.acknowledged + report.rejected + report.replayedUncertain + report.uncertain
                  == |AttemptsOf(s)|
  {
    InitialInv(config);
    RunRefines(config, INITIAL, [], events);
    Conservation(Projection(config, INITIAL, [], events));
  }
}
