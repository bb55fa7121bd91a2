/** The session oracle as an observer sees it: for every phase and every event, which answer
    is given and where it leads, down to the octets of a response. */
module SessionTable {
  import opened Bytes
  import opened Wire
  import opened Progress
  import opened Response
  import opened Session
  import opened SessionRuns
  import opened SessionMachine
  import opened ResponseOctets

  // --- failures ---

  /** Everything in flight was recorded under `outcome`, behind the history so far. */
  predicate Resolves(s: Session.State, t: Session.State, outcome: Outcome) {
    && t.pending == [] && |t.history| == |s.history| + |s.pending| && s.history <= t.history
    && forall i :: 0 <= i < |s.pending| ==> t.history[|s.history| + i] == Attempt(s.pending[i], outcome)
  }

  /** A retry waits for a new connection; what was in flight counts as replayed. */
  predicate WaitsToReplay(s: Session.State, t: Session.State) {
    && t.lifecycle == Disconnected && t.phase == ReconnectCotp && t.active == s.active
    && t.remaining + 1 == s.remaining && t.sends == s.sends && Resolves(s, t, ReplayedUnknown)
  }

  /** Without a retry the operation fails; what was in flight stays there, unless the PLC
      has rejected it. */
  predicate GivesUp(s: Session.State, t: Session.State, rejected: bool) {
    && t.lifecycle == Disconnected && t.phase == Failed && t.active == None
    && t.remaining == s.remaining && t.sends == s.sends
    && (if rejected then Resolves(s, t, GlobalRejected) else t.history == s.history && t.pending == s.pending)
  }

  lemma PendingOnlyAwaited(config: Config, s: Session.State)
    requires Inv(config, s) && s.phase in [Idle, Ready, ReconnectCotp, ReconnectSetup, Completed]
    ensures s.pending == []
  {
    hide Lost, Settled;
  }

  lemma FailureLeads(config: Config, s: Session.State, kind: ErrorKind)
    requires s.lifecycle != Closed && ((config.write && s.phase == Awaiting) || s.pending == [])
    ensures var t := Fail(config, s, kind);
            if Permitted(config, s, kind) then WaitsToReplay(s, t) else GivesUp(s, t, kind.PlcRejected?)
  {
  }

  lemma RetryableKinds(config: Config, s: Session.State, kind: ErrorKind)
    requires s.lifecycle != Closed
    ensures Permitted(config, s, kind) <==>
            s.remaining > 0 && (!config.write || config.allowMutating)
            && (kind.Timeout? || kind.PeerDisconnected? || kind.TransportError?)
  {
  }

  lemma FallibleFacts(config: Config, s: Session.State)
    requires Inv(config, s) && s.phase in [Awaiting, ReconnectCotp, ReconnectSetup]
    ensures s.lifecycle != Closed && Fallible(s) && ((config.write && s.phase == Awaiting) || s.pending == [])
  {
    hide Lost, Settled, Paid;
  }

  /** A failure is retried exactly when allowance is left, the operation may be repeated,
      and the failure is a timeout, a lost connection or a transport error. */
  lemma FailureAnswered(config: Config, s: Session.State, kind: ErrorKind)
    requires Configured(config) && Inv(config, s)
    requires s.active.Some? && (s.phase.Awaiting? || s.phase.ReconnectCotp? || s.phase.ReconnectSetup?)
    ensures var (t, result) := Next(config, s, Error(kind));
            var retried := s.remaining > 0 && (!config.write || config.allowMutating)
                           && (kind.Timeout? || kind.PeerDisconnected? || kind.TransportError?);
            && result == Session.Retry(retried)
            && (if retried then WaitsToReplay(s, t) else GivesUp(s, t, kind.PlcRejected?))
  {
    hide Inv, Configured, Fail, Permitted, Fallible, WaitsToReplay, GivesUp;
    FallibleFacts(config, s);
    RetryableKinds(config, s, kind);
    FailureLeads(config, s, kind);
  }

  /** In every other phase a failure is refused and changes nothing. */
  lemma FailureElsewhere(config: Config, s: Session.State, kind: ErrorKind)
    requires Configured(config) && Inv(config, s)
    requires s.phase in [Idle, Ready, Completed, Failed, Shut]
    ensures Next(config, s, Error(kind)) == (s, Session.Reject(FailurePhase))
  {
    hide Recorded, Paid, Configured;
  }

  // --- the other events ---

  /** A new operation starts from idle or completed, and afresh. */
  lemma BeginAnswered(config: Config, s: Session.State)
    requires Configured(config) && Inv(config, s)
    ensures Next(config, s, Begin) ==
            if s.phase in [Idle, Completed] then
              (Session.State.State(Connected, Ready, config.budget, 0, Some(config.reference), [], []), Session.Accept)
            else if s.phase in [Ready, Awaiting] then (s, Session.Reject(AlreadyActive))
            else (s, Session.Reject(NotConnected))
  {
    hide Recorded, Paid, Configured;
  }

  /** A send puts the configured locations of a write in flight, once per ready phase. */
  lemma SendAnswered(config: Config, s: Session.State)
    requires Configured(config) && Inv(config, s)
    ensures Next(config, s, Send) ==
            if s.phase == Ready then
              (s.(phase := Awaiting, sends := s.sends + 1, pending := if config.write then config.locations else []),
               Session.Accept)
            else (s, Session.Reject(SendPhase))
  {
    hide Lost, Settled, Paid, Configured;
    if s.phase == Ready {
      PendingOnlyAwaited(config, s);
    }
  }

  /** A reconnect goes through setup before the operation is ready again. */
  lemma ReconnectAnswered(config: Config, s: Session.State)
    requires Configured(config) && Inv(config, s)
    ensures Next(config, s, SetupStarted) ==
            if s.phase == ReconnectCotp then (s.(phase := ReconnectSetup), Session.Accept)
            else (s, Session.Reject(ReconnectPhase))
    ensures Next(config, s, Reconnected) ==
            if s.phase == ReconnectSetup then (s.(phase := Ready, lifecycle := Connected), Session.Accept)
            else (s, Session.Reject(ReconnectPhase))
    ensures Next(config, s, Session.Disconnect) ==
            (s.(phase := Shut, lifecycle := Closed, active := None), Session.Accept)
  {
    hide Recorded, Paid, Configured;
  }

  // --- responses ---

  /** The operation completed, with what was in flight settled by the octets from 14 on. */
  predicate Completes(config: Config, s: Session.State, t: Session.State, pdu: seq<byte>) {
    && t.lifecycle == Connected && t.phase == Completed && t.active == None
    && t.remaining == s.remaining && t.sends == s.sends && t.pending == [] && s.history <= t.history
    && |t.history| == |s.history| + |s.pending|
    && (config.write ==>
          && |s.pending| == |config.locations| && |pdu| == 14 + |s.pending|
          && forall i :: 0 <= i < |s.pending| ==>
               && t.history[|s.history| + i].location == config.locations[i]
               && StandsFor(t.history[|s.history| + i].outcome, pdu[14 + i]))
  }

  /** Only an awaited response is looked at. */
  lemma ResponseElsewhere(config: Config, s: Session.State, pdu: seq<byte>)
    requires Configured(config) && Inv(config, s) && s.phase != Awaiting
    ensures Next(config, s, Responded(pdu)) == (s, Session.Reject(ResponsePhase))
  {
    hide Recorded, Paid, Configured, ResponseOf;
  }

  /** An awaited response of a write completes the operation exactly when it matches and has
      one octet per location; refused for the PLC's reason it rejects the locations, and
      refused otherwise it leaves them in flight. */
  lemma WriteAnswered(config: Config, s: Session.State, pdu: seq<byte>)
    requires Configured(config) && Inv(config, s) && s.phase == Awaiting && config.write
    ensures var (t, result) := Next(config, s, Responded(pdu));
            var n := |config.locations|;
            if Matches(pdu, config.reference, true, n) && |pdu| == 14 + n
            then result == Session.Accept && Completes(config, s, t, pdu)
            else
              && result == Session.Reject(Session.ResponseCodec)
              && GivesUp(s, t, Acknowledges(pdu, config.reference) && (pdu[10] != 0 || pdu[11] != 0))
  {
    hide Configured, ResponseOf, Matches, Acknowledges, StandsFor, Inv, Fail, Finish, Completes, GivesUp, Permitted;
    Refusals(QueryOf(config), pdu);
    WriteVerdict(QueryOf(config), pdu);
    WritesInFlight(config, s);
    NeverRetried(config, s, pdu);
    var decoded := ResponseOf(QueryOf(config), pdu);
    if decoded.Accepted? {
      SettledCompletes(config, s, pdu, decoded.statuses);
    } else {
      FailureLeads(config, s, decoded.kind);
    }
  }

  lemma SettledCompletes(config: Config, s: Session.State, pdu: seq<byte>, statuses: seq<Status>)
    requires config.write && s.lifecycle == Connected && s.pending == config.locations
    requires |statuses| == |s.pending| && |pdu| == 14 + |s.pending|
    requires forall i :: 0 <= i < |statuses| ==> StandsFor(statuses[i], pdu[14 + i])
    ensures Completes(config, s, Finish(s, statuses).(active := None, phase := Completed), pdu)
  {
    hide StandsFor;
  }

  lemma WritesInFlight(config: Config, s: Session.State)
    requires Inv(config, s) && s.phase == Awaiting
    ensures s.lifecycle == Connected && s.active.Some?
    ensures s.pending == if config.write then config.locations else []
  {
    hide Lost, Settled;
  }

  lemma NeverRetried(config: Config, s: Session.State, pdu: seq<byte>)
    requires Configured(config)
    ensures var decoded := ResponseOf(QueryOf(config), pdu);
            decoded.Rejected? ==> !Permitted(config, s, decoded.kind)
  {
    Refusals(QueryOf(config), pdu);
    hide ResponseOf, Configured, Matches, Acknowledges;
  }

  /** An awaited response of a read completes the operation exactly when it matches and its
      records fill it. */
  lemma ReadAnswered(config: Config, s: Session.State, pdu: seq<byte>)
    requires Configured(config) && Inv(config, s) && s.phase == Awaiting && !config.write
    ensures var (t, result) := Next(config, s, Responded(pdu));
            if Matches(pdu, config.reference, false, |config.locations|)
               && exists starts :: RecordsSpan(pdu, CountsOf(RangesOf(config.locations)), starts)
            then result == Session.Accept && Completes(config, s, t, pdu)
            else result == Session.Reject(Session.ResponseCodec) && GivesUp(s, t, false)
  {
    ReadVerdict(QueryOf(config), pdu);
    WritesInFlight(config, s);
    NeverRetried(config, s, pdu);
    hide Recorded, Paid, Configured, ResponseOf, Matches, RecordsSpan, Inv;
  }

  // --- the trace ---

  /** Every visible field of a state, with what is in flight shown as pending. */
  predicate Shows(snapshot: Snapshot, s: Session.State) {
    && snapshot.lifecycle == s.lifecycle && snapshot.remaining == s.remaining && snapshot.active == s.active
    && snapshot.phase == s.phase && snapshot.sends == s.sends
    && |snapshot.attempts| == |s.history| + |s.pending| && s.history <= snapshot.attempts
    && forall k :: 0 <= k < |s.pending| ==> snapshot.attempts[|s.history| + k] == Attempt(s.pending[k], Pending)
  }

  lemma SnapshotShows(s: Session.State)
    ensures Shows(SnapshotOf(s), s)
  {
  }

  /** Step `i` of a trace: the answer to event `i`, and the state the run so far has reached. */
  lemma {:induction false} TraceShows(config: Config, events: seq<Session.Event>, i: nat)
    requires Configured(config) && i < |events|
    ensures Inv(config, INITIAL) && |StepsOf(config, events)| == |events|
    ensures var step := StepsOf(config, events)[i];
            && step.result == Next(config, Run(config, INITIAL, events[..i]), events[i]).1
            && Shows(step.snapshot, Run(config, INITIAL, events[..i + 1]))
    decreases |events|
  {
    InitialInv(config);
    hide Next, Configured, Inv, Run, SnapshotOf, Shows;
    var front := events[..|events| - 1];
    TraceLength(config, front);
    if i + 1 < |events| {
      assert front[..i + 1] == events[..i + 1] && front[..i] == events[..i];
      TraceShows(config, front, i);
    } else {
      assert events[..i + 1] == events && events[..i] == front;
      SnapshotShows(Run(config, INITIAL, events));
    }
  }

  lemma {:induction false} TraceLength(config: Config, events: seq<Session.Event>)
    requires Configured(config)
    ensures |StepsOf(config, events)| == |events|
    decreases |events|
  {
    if events == [] {
    } else {
      TraceLength(config, events[..|events| - 1]);
    }
  }
}
