/** The live campaigns' closed forms for reconnect faults and repeated lost replies,
    derived from the session oracle for every allowance and every failure count. */
module Reconnect {
  import opened Bytes
  import opened Wire
  import opened Progress
  import opened Response
  import opened Session
  import opened SessionRuns

  datatype Mode = ReadMode | RawMode | WriteMode | MultiMode

  datatype Fault = CotpEof | SetupEof | CotpInvalid | SetupInvalid | SetupReject | SetupShrink | Deadline

  datatype Case = Case(mode: Mode, fault: Fault, budget: nat, failures: nat) {
    predicate EndsInEof() { fault in [CotpEof, SetupEof] }

    predicate Succeeds() { EndsInEof() && failures < budget }

    function Sessions(): nat {
      if budget == 0 then 1
      else if !EndsInEof() then 2
      else 1 + (if Succeeds() then failures + 1 else budget)
    }
  }

  datatype Label = PendingLabel | ReplayedLabel | RejectedLabel | AcknowledgedLabel

  datatype Expected = Expected(
    recovered: bool, connections: nat, sends: nat, writeAttempts: nat, acknowledged: nat,
    pendingUncertain: nat, replayedUncertain: nat, chronology: seq<Label>)

  function Times<T>(n: nat, x: T): (s: seq<T>)
    ensures |s| == n && forall i :: 0 <= i < n ==> s[i] == x
  {
    seq(n, _ => x)
  }

  function WidthOf(mode: Mode): nat {
    match mode case MultiMode => 2 case WriteMode => 1 case _ => 0
  }

  /** The generative campaign's prediction, which does not consult `Case`. */
  function Predict(c: Case): Expected {
    var transient := c.fault == CotpEof || c.fault == SetupEof;
    var recovered := transient && c.budget > c.failures;
    var reconnects := if c.budget == 0 then 0
                      else if transient then (if c.budget < c.failures + 1 then c.budget else c.failures + 1)
                      else 1;
    var sends := if recovered then 2 else 1;
    var width := WidthOf(c.mode);
    var replayed := c.budget > 0;
    Expected(
      recovered, 1 + reconnects, sends, width * sends,
      if recovered then width else 0, if replayed then 0 else width, if replayed then width else 0,
      Times(width, if replayed then ReplayedLabel else PendingLabel)
      + (if recovered then Times(width, AcknowledgedLabel) else []))
  }

  // --- the scripted environment ---

  /** One failed reconnect, at the COTP or at the setup stage. */
  function FaultEvents(fault: Fault, kind: ErrorKind): seq<Session.Event> {
    if fault in [CotpEof, CotpInvalid] then [Error(kind)] else [SetupStarted, Error(kind)]
  }

  function Repeated(n: nat, events: seq<Session.Event>): seq<Session.Event> {
    if n == 0 then [] else events + Repeated(n - 1, events)
  }

  function Faults(c: Case, lost: ErrorKind, terminal: ErrorKind): seq<Session.Event> {
    if c.EndsInEof() then Repeated(c.failures, FaultEvents(c.fault, lost)) else FaultEvents(c.fault, terminal)
  }

  /** The case's reconnect faults, then a peer ready to recover. */
  function Reconnects(c: Case, lost: ErrorKind, terminal: ErrorKind, answer: seq<byte>): seq<Session.Event> {
    Faults(c, lost, terminal) + [SetupStarted, Reconnected, Send, Responded(answer)]
  }

  function FaultScript(c: Case, lost: ErrorKind, terminal: ErrorKind, answer: seq<byte>): seq<Session.Event> {
    [Begin, Send, Error(lost)] + Reconnects(c, lost, terminal, answer)
  }

  function DropCycleEvents(lost: ErrorKind): seq<Session.Event> {
    [Send, Error(lost), SetupStarted, Reconnected]
  }

  /** Replies lost `drops` times, each followed by a clean reconnect, then answered. */
  function DropScript(drops: nat, lost: ErrorKind, answer: seq<byte>): seq<Session.Event> {
    [Begin] + (Repeated(drops, DropCycleEvents(lost)) + [Send, Responded(answer)])
  }

  // --- stepping through scripts ---

  lemma RunCons(config: Config, s: Session.State, event: Session.Event, rest: seq<Session.Event>)
    requires Configured(config) && Inv(config, s)
    ensures Inv(config, Next(config, s, event).0)
    ensures Run(config, s, [event] + rest) == Run(config, Next(config, s, event).0, rest)
  {
    hide Next, Inv, Configured;
    NextInv(config, s, event);
    assert ([event] + rest)[1..] == rest;
  }

  lemma RunOne(config: Config, s: Session.State, event: Session.Event)
    requires Configured(config) && Inv(config, s)
    ensures Inv(config, Next(config, s, event).0)
    ensures Run(config, s, [event]) == Next(config, s, event).0
  {
    hide Next, Inv, Configured;
    NextInv(config, s, event);
    assert [event][1..] == [];
  }

  function Step2(config: Config, s: Session.State, a: Session.Event, b: Session.Event): Session.State
    requires Configured(config) && Inv(config, s)
  {
    NextInv(config, s, a);
    Next(config, Next(config, s, a).0, b).0
  }

  lemma RunTwo(config: Config, s: Session.State, a: Session.Event, b: Session.Event)
    requires Configured(config) && Inv(config, s)
    ensures Run(config, s, [a, b]) == Step2(config, s, a, b)
  {
    hide Next, Inv, Configured;
    NextInv(config, s, a);
    RunCons(config, s, a, [b]);
    RunOne(config, Next(config, s, a).0, b);
    hide Run;
    assert [a, b] == [a] + [b];
  }

  /** A failed session ignores everything but a disconnect. */
  lemma {:induction false} FailedIgnores(config: Config, s: Session.State, events: seq<Session.Event>)
    requires Configured(config) && Inv(config, s) && s.phase == Failed && Disconnect !in events
    ensures Run(config, s, events) == s
    decreases |events|
  {
    if events == [] {
    } else {
      OverStays(config, s, events[0]);
      hide Next, Inv, Configured;
      FailedIgnores(config, s, events[1..]);
    }
  }

  function ReadyState(config: Config, remaining: nat, sends: nat): Session.State {
    Session.State.State(Connected, Ready, remaining, sends, Some(config.reference), Lost(config, sends), [])
  }

  function AwaitingState(config: Config, remaining: nat, sends: nat): Session.State {
    Session.State.State(Connected, Awaiting, remaining, sends + 1, Some(config.reference),
                        Lost(config, sends), InFlight(config))
  }

  function ReconnectingState(config: Config, remaining: nat, sends: nat): Session.State {
    Session.State.State(Disconnected, ReconnectCotp, remaining, sends, Some(config.reference),
                        Lost(config, sends), [])
  }

  function SettingUpState(config: Config, remaining: nat, sends: nat): Session.State {
    ReconnectingState(config, remaining, sends).(phase := ReconnectSetup)
  }

  /** The state a run ends in when the last send is lost with no allowance left. */
  function GivenUpState(config: Config, remaining: nat, sends: nat): Session.State {
    Session.State.State(Disconnected, Failed, remaining, sends + 1, None, Lost(config, sends), InFlight(config))
  }

  /** The state a run ends in when reconnecting fails for good. */
  function UnreachableState(config: Config, remaining: nat, sends: nat): Session.State {
    Session.State.State(Disconnected, Failed, remaining, sends, None, Lost(config, sends), [])
  }

  function CompletedState(config: Config, remaining: nat, sends: nat, statuses: seq<Status>): Session.State
    requires |statuses| == |InFlight(config)|
  {
    Session.State.State(Connected, Completed, remaining, sends + 1, None,
                        Lost(config, sends) + Zip(InFlight(config), statuses), [])
  }

  lemma BeginStep(config: Config)
    requires Configured(config)
    ensures Inv(config, INITIAL) && Next(config, INITIAL, Begin).0 == ReadyState(config, config.budget, 0)
  {
    InitialInv(config);
  }

  lemma SendStep(config: Config, remaining: nat, sends: nat)
    requires Configured(config) && Inv(config, ReadyState(config, remaining, sends))
    ensures Next(config, ReadyState(config, remaining, sends), Send).0 == AwaitingState(config, remaining, sends)
    ensures Inv(config, AwaitingState(config, remaining, sends))
  {
    hide Lost, Configured, Recorded;
    NextInv(config, ReadyState(config, remaining, sends), Send);
  }

  /** A lost reply: replayed while the allowance lasts, given up otherwise. */
  lemma LossStep(config: Config, remaining: nat, sends: nat, lost: ErrorKind)
    requires Configured(config) && Inv(config, AwaitingState(config, remaining, sends)) && Transient(lost)
    ensures var t := Next(config, AwaitingState(config, remaining, sends), Error(lost)).0;
            && Inv(config, t)
            && t == if remaining > 0 && MayReplay(config) then ReconnectingState(config, remaining - 1, sends + 1)
                    else GivenUpState(config, remaining, sends)
  {
    hide Lost, Configured;
    var s := AwaitingState(config, remaining, sends);
    NextInv(config, s, Error(lost));
    LostStep(config, sends + 1);
    hide Inv;
    if !config.write {
      assert Marked(InFlight(config), ReplayedUnknown) == [];
      assert s.history + [] == s.history;
    }
  }

  /** A clean reconnect: setup, then ready. */
  lemma SetupSteps(config: Config, remaining: nat, sends: nat)
    requires Configured(config) && Inv(config, ReconnectingState(config, remaining, sends))
    ensures Next(config, ReconnectingState(config, remaining, sends), SetupStarted).0
            == SettingUpState(config, remaining, sends)
    ensures Inv(config, SettingUpState(config, remaining, sends))
    ensures Next(config, SettingUpState(config, remaining, sends), Reconnected).0
            == ReadyState(config, remaining, sends)
    ensures Inv(config, ReadyState(config, remaining, sends))
  {
    hide Lost, Configured, Recorded;
    NextInv(config, ReconnectingState(config, remaining, sends), SetupStarted);
    NextInv(config, SettingUpState(config, remaining, sends), Reconnected);
  }

  lemma ReconnectSteps(config: Config, remaining: nat, sends: nat)
    requires Configured(config) && Inv(config, ReconnectingState(config, remaining, sends))
    ensures Step2(config, ReconnectingState(config, remaining, sends), SetupStarted, Reconnected)
            == ReadyState(config, remaining, sends)
    ensures Inv(config, ReadyState(config, remaining, sends))
  {
    hide Next, Inv, Configured, Lost;
    SetupSteps(config, remaining, sends);
  }

  predicate Answers(config: Config, answer: seq<byte>)
    requires Configured(config)
  {
    ResponseOf(QueryOf(config), answer).Accepted?
  }

  lemma AnsweredStep(config: Config, remaining: nat, sends: nat, answer: seq<byte>)
    requires Configured(config) && Inv(config, AwaitingState(config, remaining, sends)) && Answers(config, answer)
    ensures var statuses := ResponseOf(QueryOf(config), answer).statuses;
            && |statuses| == |InFlight(config)|
            && Next(config, AwaitingState(config, remaining, sends), Responded(answer)).0
               == CompletedState(config, remaining, sends, statuses)
            && Inv(config, CompletedState(config, remaining, sends, statuses))
  {
    hide Lost, Configured;
    var s := AwaitingState(config, remaining, sends);
    NextInv(config, s, Responded(answer));
    StatusCount(config, answer);
    hide Recorded, Paid, ResponseOf;
    if !config.write {
      FinishNothing(s, ResponseOf(QueryOf(config), answer).statuses);
    }
  }

  /** From ready: one send and its answer complete the operation. */
  lemma RecoverRun(config: Config, remaining: nat, sends: nat, answer: seq<byte>)
    requires Configured(config) && Inv(config, ReadyState(config, remaining, sends)) && Answers(config, answer)
    ensures |ResponseOf(QueryOf(config), answer).statuses| == |InFlight(config)|
    ensures Run(config, ReadyState(config, remaining, sends), [Send, Responded(answer)])
            == CompletedState(config, remaining, sends, ResponseOf(QueryOf(config), answer).statuses)
  {
    hide Run, Next, Inv, Configured, Lost, ResponseOf;
    SendStep(config, remaining, sends);
    AnsweredStep(config, remaining, sends, answer);
    RunTwo(config, ReadyState(config, remaining, sends), Send, Responded(answer));
  }

  // --- reconnect-stage faults ---

  /** What a failure at either reconnect stage leads to. */
  function FaultedState(config: Config, remaining: nat, kind: ErrorKind): Session.State {
    if Transient(kind) && remaining > 0 then ReconnectingState(config, remaining - 1, 1)
    else UnreachableState(config, remaining, 1)
  }

  lemma FaultSteps(config: Config, remaining: nat, kind: ErrorKind)
    requires Configured(config) && MayReplay(config)
    ensures var s := ReconnectingState(config, remaining, 1);
            Inv(config, s) ==> Next(config, s, Error(kind)).0 == FaultedState(config, remaining, kind)
    ensures var s := SettingUpState(config, remaining, 1);
            Inv(config, s) ==> Next(config, s, Error(kind)).0 == FaultedState(config, remaining, kind)
  {
    hide Lost, Configured, Inv;
  }

  /** One failed reconnect spends one retry, or ends the operation. */
  lemma FaultRun(config: Config, remaining: nat, fault: Fault, kind: ErrorKind)
    requires Configured(config) && MayReplay(config) && Inv(config, ReconnectingState(config, remaining, 1))
    ensures Run(config, ReconnectingState(config, remaining, 1), FaultEvents(fault, kind))
            == FaultedState(config, remaining, kind)
  {
    hide Run, Next, Inv, Configured, Lost, FaultedState;
    FaultSteps(config, remaining, kind);
    var s := ReconnectingState(config, remaining, 1);
    if fault in [CotpEof, CotpInvalid] {
      RunOne(config, s, Error(kind));
    } else {
      SetupSteps(config, remaining, 1);
      RunTwo(config, s, SetupStarted, Error(kind));
    }
  }

  lemma {:induction false} FaultsRun(config: Config, remaining: nat, n: nat, fault: Fault, lost: ErrorKind)
    requires Configured(config) && MayReplay(config) && Inv(config, ReconnectingState(config, remaining, 1))
    requires Transient(lost)
    ensures Run(config, ReconnectingState(config, remaining, 1), Repeated(n, FaultEvents(fault, lost)))
            == if n <= remaining then ReconnectingState(config, remaining - n, 1) else UnreachableState(config, 0, 1)
    decreases n
  {
    hide Next, Inv, Configured, Lost, FaultEvents;
    var s, events := ReconnectingState(config, remaining, 1), FaultEvents(fault, lost);
    if n == 0 {
    } else {
      hide Run;
      FaultHasNoDisconnect(fault, lost);
      FaultRun(config, remaining, fault, lost);
      RunAppend(config, s, events, Repeated(n - 1, events));
      if remaining > 0 {
        FaultsRun(config, remaining - 1, n - 1, fault, lost);
      } else {
        NoDisconnect(n - 1, events);
        FailedIgnores(config, UnreachableState(config, 0, 1), Repeated(n - 1, events));
      }
    }
  }

  lemma FaultHasNoDisconnect(fault: Fault, kind: ErrorKind)
    ensures Disconnect !in FaultEvents(fault, kind)
  {
  }

  lemma {:induction false} NoDisconnect(n: nat, events: seq<Session.Event>)
    requires Disconnect !in events
    ensures Disconnect !in Repeated(n, events)
  {
    if n == 0 {
    } else {
      NoDisconnect(n - 1, events);
    }
  }

  lemma FaultsHaveNoDisconnect(c: Case, lost: ErrorKind, terminal: ErrorKind)
    ensures Disconnect !in Faults(c, lost, terminal)
  {
    hide Repeated;
    FaultHasNoDisconnect(c.fault, lost);
    NoDisconnect(c.failures, FaultEvents(c.fault, lost));
  }

  /** The state a fault script ends in. */
  function FaultOutcome(config: Config, c: Case, answer: seq<byte>): Session.State
    requires Configured(config) && Answers(config, answer) && config.budget == c.budget
  {
    StatusCount(config, answer);
    if c.budget == 0 then GivenUpState(config, 0, 0)
    else if !c.EndsInEof() then UnreachableState(config, c.budget - 1, 1)
    else if c.failures < c.budget then
      CompletedState(config, c.budget - 1 - c.failures, 1, ResponseOf(QueryOf(config), answer).statuses)
    else UnreachableState(config, 0, 1)
  }

  /** Every run starts with an accepted `Begin`. */
  lemma BeginRun(config: Config, rest: seq<Session.Event>)
    requires Configured(config)
    ensures Inv(config, INITIAL) && Inv(config, ReadyState(config, config.budget, 0))
    ensures Run(config, INITIAL, [Begin] + rest) == Run(config, ReadyState(config, config.budget, 0), rest)
  {
    BeginStep(config);
    hide Next, Inv, Configured, Lost, Run;
    NextInv(config, INITIAL, Begin);
    RunCons(config, INITIAL, Begin, rest);
  }

  /** A send from ready, whose reply is lost. */
  lemma LossRun(config: Config, remaining: nat, sends: nat, lost: ErrorKind)
    requires Configured(config) && Inv(config, ReadyState(config, remaining, sends)) && Transient(lost)
    ensures var t := Run(config, ReadyState(config, remaining, sends), [Send, Error(lost)]);
            t == if remaining > 0 && MayReplay(config) then ReconnectingState(config, remaining - 1, sends + 1)
                 else GivenUpState(config, remaining, sends)
  {
    hide Run, Next, Inv, Configured, Lost, MayReplay, Transient;
    SendStep(config, remaining, sends);
    LossStep(config, remaining, sends, lost);
    RunTwo(config, ReadyState(config, remaining, sends), Send, Error(lost));
  }

  /** The first send of a run, lost. */
  lemma OpeningRun(config: Config, lost: ErrorKind, rest: seq<Session.Event>)
    requires Configured(config) && MayReplay(config) && Transient(lost)
    ensures Inv(config, INITIAL)
    ensures var t := if config.budget > 0 then ReconnectingState(config, config.budget - 1, 1)
                     else GivenUpState(config, 0, 0);
            && Inv(config, t)
            && Run(config, INITIAL, [Begin, Send, Error(lost)] + rest) == Run(config, t, rest)
  {
    hide Run, Next, Inv, Configured, Lost, MayReplay, Transient;
    assert [Begin, Send, Error(lost)] + rest == [Begin] + ([Send, Error(lost)] + rest);
    BeginRun(config, [Send, Error(lost)] + rest);
    LossRun(config, config.budget, 0, lost);
    RunAppend(config, ReadyState(config, config.budget, 0), [Send, Error(lost)], rest);
  }

  /** The faulty reconnects, then the peer's readiness to recover. */
  lemma ReconnectRun(config: Config, c: Case, lost: ErrorKind, terminal: ErrorKind, answer: seq<byte>)
    requires Configured(config) && MayReplay(config) && config.budget == c.budget && Answers(config, answer)
    requires Transient(lost) && !Transient(terminal) && c.budget > 0
    requires Inv(config, ReconnectingState(config, c.budget - 1, 1))
    ensures Run(config, ReconnectingState(config, c.budget - 1, 1), Reconnects(c, lost, terminal, answer))
            == FaultOutcome(config, c, answer)
  {
    hide Run, Next, Configured, Lost, Answers, Inv, ResponseOf, QueryOf, Repeated, FaultEvents;
    var s := ReconnectingState(config, c.budget - 1, 1);
    var faults := Faults(c, lost, terminal);
    var recovery := [SetupStarted, Reconnected, Send, Responded(answer)];
    RunAppend(config, s, faults, recovery);
    if c.EndsInEof() {
      FaultsRun(config, c.budget - 1, c.failures, c.fault, lost);
    } else {
      FaultRun(config, c.budget - 1, c.fault, terminal);
    }
    if c.Succeeds() {
      RecoverAfterFaults(config, c.budget - 1 - c.failures, answer);
    } else {
      FailedIgnores(config, Run(config, s, faults), recovery);
    }
  }

  lemma FaultScriptRun(config: Config, c: Case, lost: ErrorKind, terminal: ErrorKind, answer: seq<byte>)
    requires Configured(config) && MayReplay(config) && config.budget == c.budget && Answers(config, answer)
    requires Transient(lost) && !Transient(terminal)
    ensures Inv(config, INITIAL)
    ensures Run(config, INITIAL, FaultScript(c, lost, terminal, answer)) == FaultOutcome(config, c, answer)
  {
    hide Run, Next, Configured, Lost, Answers, Inv, ResponseOf, QueryOf, Repeated, FaultEvents, MayReplay;
    var rest := Reconnects(c, lost, terminal, answer);
    OpeningRun(config, lost, rest);
    if c.budget > 0 {
      ReconnectRun(config, c, lost, terminal, answer);
    } else {
      FaultsHaveNoDisconnect(c, lost, terminal);
      FailedIgnores(config, GivenUpState(config, 0, 0), rest);
    }
  }

  lemma RecoverAfterFaults(config: Config, remaining: nat, answer: seq<byte>)
    requires Configured(config) && Inv(config, ReconnectingState(config, remaining, 1)) && Answers(config, answer)
    ensures |ResponseOf(QueryOf(config), answer).statuses| == |InFlight(config)|
    ensures Run(config, ReconnectingState(config, remaining, 1), [SetupStarted, Reconnected, Send, Responded(answer)])
            == CompletedState(config, remaining, 1, ResponseOf(QueryOf(config), answer).statuses)
  {
    hide Run, Next, Inv, Configured, Lost, Answers, ResponseOf, QueryOf;
    var s := ReconnectingState(config, remaining, 1);
    assert [SetupStarted, Reconnected, Send, Responded(answer)]
        == [SetupStarted, Reconnected] + [Send, Responded(answer)];
    RunAppend(config, s, [SetupStarted, Reconnected], [Send, Responded(answer)]);
    ReconnectSteps(config, remaining, 1);
    RunTwo(config, s, SetupStarted, Reconnected);
    RecoverRun(config, remaining, 1, answer);
  }

  // --- agreement with the closed form ---

  function LabelOf(outcome: Outcome): Label {
    match outcome
    case Pending => PendingLabel
    case ReplayedUnknown => ReplayedLabel
    case GlobalRejected => RejectedLabel
    case _ => AcknowledgedLabel
  }

  function Chronology(attempts: seq<Attempt>): (s: seq<Label>)
    ensures |s| == |attempts| && forall i :: 0 <= i < |s| ==> s[i] == LabelOf(attempts[i].outcome)
  {
    seq(|attempts|, i requires 0 <= i < |attempts| => LabelOf(attempts[i].outcome))
  }

  /** The configuration a campaign case stands for: writes tracked, replay opted into. */
  predicate Configures(config: Config, c: Case) {
    && Configured(config) && (!config.write || config.allowMutating) && config.budget == c.budget
    && config.write == (c.mode in [WriteMode, MultiMode])
    && (config.write ==> |config.locations| == WidthOf(c.mode))
  }

  /** What the observer of a finished run can report. */
  function Observation(config: Config, s: Session.State): Expected
    requires s.remaining <= config.budget
  {
    var report := ReportOf(AttemptsOf(s));
    Expected(s.phase == Completed, 1 + (config.budget - s.remaining), s.sends, |AttemptsOf(s)|,
             report.acknowledged, report.uncertain, report.replayedUncertain, Chronology(AttemptsOf(s)))
  }

  lemma LostOnce(config: Config)
    ensures Lost(config, 1) == Marked(InFlight(config), ReplayedUnknown)
  {
    LostStep(config, 1);
    assert Lost(config, 0) == [];
  }

  /** Counts and labels of one uniform block. */
  lemma BlockReport(locations: seq<Location>, outcome: Outcome)
    ensures var block := Marked(locations, outcome);
            && Count(block, IsAcknowledged) == (if IsAcknowledged(outcome) then |locations| else 0)
            && Count(block, (o: Outcome) => o == ReplayedUnknown)
               == (if outcome == ReplayedUnknown then |locations| else 0)
            && Count(block, (o: Outcome) => o == Pending) == (if outcome == Pending then |locations| else 0)
            && Chronology(block) == Times(|locations|, LabelOf(outcome))
  {
    CountMarked(locations, outcome, IsAcknowledged);
    CountMarked(locations, outcome, (o: Outcome) => o == ReplayedUnknown);
    CountMarked(locations, outcome, (o: Outcome) => o == Pending);
  }

  lemma ConcatReport(a: seq<Attempt>, b: seq<Attempt>)
    ensures Count(a + b, IsAcknowledged) == Count(a, IsAcknowledged) + Count(b, IsAcknowledged)
    ensures Count(a + b, (o: Outcome) => o == ReplayedUnknown)
            == Count(a, (o: Outcome) => o == ReplayedUnknown) + Count(b, (o: Outcome) => o == ReplayedUnknown)
    ensures Count(a + b, (o: Outcome) => o == Pending)
            == Count(a, (o: Outcome) => o == Pending) + Count(b, (o: Outcome) => o == Pending)
    ensures Chronology(a + b) == Chronology(a) + Chronology(b)
  {
    CountAppend(a, b, IsAcknowledged);
    CountAppend(a, b, (o: Outcome) => o == ReplayedUnknown);
    CountAppend(a, b, (o: Outcome) => o == Pending);
  }

  lemma SettledReport(locations: seq<Location>, statuses: seq<Status>)
    requires |locations| == |statuses|
    ensures var block := Zip(locations, statuses);
            && Count(block, IsAcknowledged) == |locations|
            && Count(block, (o: Outcome) => o == ReplayedUnknown) == 0
            && Count(block, (o: Outcome) => o == Pending) == 0
            && Chronology(block) == Times(|locations|, AcknowledgedLabel)
  {
    CountSettled(locations, statuses);
  }

  predicate Reports(attempts: seq<Attempt>, acknowledged: nat, pending: nat, replayed: nat, chronology: seq<Label>) {
    && Count(attempts, IsAcknowledged) == acknowledged
    && Count(attempts, (o: Outcome) => o == Pending) == pending
    && Count(attempts, (o: Outcome) => o == ReplayedUnknown) == replayed
    && Chronology(attempts) == chronology
  }

  lemma GivenUpReports(config: Config)
    ensures var w := |InFlight(config)|;
            Reports(AttemptsOf(GivenUpState(config, 0, 0)), 0, w, 0, Times(w, PendingLabel))
  {
    var block := Marked(InFlight(config), Pending);
    assert AttemptsOf(GivenUpState(config, 0, 0)) == block;
    BlockReport(InFlight(config), Pending);
  }

  lemma UnreachableReports(config: Config, remaining: nat)
    ensures var w := |InFlight(config)|;
            Reports(AttemptsOf(UnreachableState(config, remaining, 1)), 0, 0, w, Times(w, ReplayedLabel))
  {
    LostOnce(config);
    NothingPending(UnreachableState(config, remaining, 1));
    BlockReport(InFlight(config), ReplayedUnknown);
  }

  lemma CompletedReports(config: Config, remaining: nat, statuses: seq<Status>)
    requires |statuses| == |InFlight(config)|
    ensures var w := |InFlight(config)|;
            Reports(AttemptsOf(CompletedState(config, remaining, 1, statuses)), w, 0, w,
                    Times(w, ReplayedLabel) + Times(w, AcknowledgedLabel))
  {
    hide Lost, Marked, Zip, Chronology, Count, Times;
    var locations := InFlight(config);
    LostOnce(config);
    NothingPending(CompletedState(config, remaining, 1, statuses));
    BlockReport(locations, ReplayedUnknown);
    SettledReport(locations, statuses);
    ConcatReport(Marked(locations, ReplayedUnknown), Zip(locations, statuses));
  }

  /** A state with the predicted shape and the predicted reports is the prediction. */
  lemma ObservedAsPredicted(config: Config, c: Case, s: Session.State)
    requires s.remaining <= config.budget
    requires var p := Predict(c);
             && (s.phase == Completed) == p.recovered
             && 1 + (config.budget - s.remaining) == p.connections && s.sends == p.sends
             && Reports(AttemptsOf(s), p.acknowledged, p.pendingUncertain, p.replayedUncertain, p.chronology)
    ensures Observation(config, s) == Predict(c)
  {
    hide Count, Chronology, AttemptsOf, Times, WidthOf;
    assert |Chronology(AttemptsOf(s))| == |AttemptsOf(s)|;
  }

  lemma WidthIsTracked(config: Config, c: Case)
    requires Configures(config, c)
    ensures |InFlight(config)| == WidthOf(c.mode)
  {
    hide Configured;
  }

  /** The prediction, by how the case ends. */
  lemma Prediction(c: Case)
    ensures var w := WidthOf(c.mode);
            Predict(c) ==
            if c.budget == 0 then Expected(false, 1, 1, w, 0, w, 0, Times(w, PendingLabel))
            else if c.Succeeds() then
              Expected(true, c.failures + 2, 2, w + w, w, 0, w, Times(w, ReplayedLabel) + Times(w, AcknowledgedLabel))
            else
              Expected(false, if c.EndsInEof() then 1 + c.budget else 2, 1, w, 0, 0, w, Times(w, ReplayedLabel))
  {
    var w := WidthOf(c.mode);
    hide WidthOf, Times;
    assert Times(w, PendingLabel) + [] == Times(w, PendingLabel);
    assert Times(w, ReplayedLabel) + [] == Times(w, ReplayedLabel);
  }

  lemma GivenUpObserved(config: Config, c: Case)
    requires Configures(config, c) && c.budget == 0
    ensures Observation(config, GivenUpState(config, 0, 0)) == Predict(c)
  {
    hide Configured, Lost, AttemptsOf, InFlight, WidthOf, Reports, Times, Observation, Predict;
    WidthIsTracked(config, c);
    Prediction(c);
    GivenUpReports(config);
    ObservedAsPredicted(config, c, GivenUpState(config, 0, 0));
  }

  lemma UnreachableObserved(config: Config, c: Case)
    requires Configures(config, c) && c.budget > 0 && !c.Succeeds()
    ensures Observation(config, UnreachableState(config, if c.EndsInEof() then 0 else c.budget - 1, 1)) == Predict(c)
  {
    hide Configured, Lost, AttemptsOf, InFlight, WidthOf, Reports, Times, Observation, Predict;
    var remaining := if c.EndsInEof() then 0 else c.budget - 1;
    WidthIsTracked(config, c);
    Prediction(c);
    UnreachableReports(config, remaining);
    ObservedAsPredicted(config, c, UnreachableState(config, remaining, 1));
  }

  lemma CompletedObserved(config: Config, c: Case, statuses: seq<Status>)
    requires Configures(config, c) && c.Succeeds() && |statuses| == |InFlight(config)|
    ensures Observation(config, CompletedState(config, c.budget - 1 - c.failures, 1, statuses)) == Predict(c)
  {
    hide Configured, Lost, AttemptsOf, InFlight, WidthOf, Zip, Reports, Times, Observation, Predict;
    WidthIsTracked(config, c);
    Prediction(c);
    CompletedReports(config, c.budget - 1 - c.failures, statuses);
    ObservedAsPredicted(config, c, CompletedState(config, c.budget - 1 - c.failures, 1, statuses));
  }

  lemma OutcomeObserved(config: Config, c: Case, answer: seq<byte>)
    requires Configures(config, c) && Answers(config, answer)
    ensures FaultOutcome(config, c, answer).remaining <= config.budget
    ensures Observation(config, FaultOutcome(config, c, answer)) == Predict(c)
  {
    hide Configured, Observation, ResponseOf, Predict, QueryOf, Lost, InFlight, WidthOf;
    if c.budget == 0 {
      GivenUpObserved(config, c);
    } else if c.Succeeds() {
      StatusCount(config, answer);
      CompletedObserved(config, c, ResponseOf(QueryOf(config), answer).statuses);
    } else {
      UnreachableObserved(config, c);
    }
  }

  /** For every allowance and failure count, playing a case's faults to the session
      oracle gives exactly the campaign's closed form, which agrees with `Case`. */
  lemma SessionMatchesClosedForm(config: Config, c: Case, lost: ErrorKind, terminal: ErrorKind, answer: seq<byte>)
    requires Configures(config, c) && Answers(config, answer)
    requires lost in [Timeout, PeerDisconnected, TransportError]
    requires terminal !in [Timeout, PeerDisconnected, TransportError]
    ensures Inv(config, INITIAL)
    ensures var s := Run(config, INITIAL, FaultScript(c, lost, terminal, answer));
            && s.remaining <= config.budget
            && Observation(config, s) == Predict(c)
            && (s.phase == Completed <==> c.Succeeds())
            && 1 + (config.budget - s.remaining) == c.Sessions()
  {
    FaultScriptRun(config, c, lost, terminal, answer);
    OutcomeObserved(config, c, answer);
  }

  // --- repeated lost replies ---

  datatype RetryMode = ReadRetry | RawRetry | RawOptIn | WriteRetry | WriteOptIn

  /** Wire attempts and success, by the retry-budget campaign's formula. */
  function ExpectedAttempts(mode: RetryMode, budget: nat, drops: nat): (nat, bool) {
    var replay := mode in [ReadRetry, RawOptIn, WriteOptIn];
    var success := drops == 0 || (replay && drops <= budget);
    (if success then drops + 1 else if replay then budget + 1 else 1, success)
  }

  /** `n` lost replies, each followed by a clean reconnect. */
  lemma {:induction false} DropsRun(config: Config, remaining: nat, sends: nat, n: nat, lost: ErrorKind)
    requires Configured(config) && Inv(config, ReadyState(config, remaining, sends)) && Transient(lost)
    ensures var cycle := DropCycleEvents(lost);
            Run(config, ReadyState(config, remaining, sends), Repeated(n, cycle)) ==
            if n == 0 then ReadyState(config, remaining, sends)
            else if !MayReplay(config) then GivenUpState(config, remaining, sends)
            else if n <= remaining then ReadyState(config, remaining - n, sends + n)
            else GivenUpState(config, 0, sends + remaining)
    decreases n
  {
    hide Next, Inv, Configured, Lost;
    var s := ReadyState(config, remaining, sends);
    var cycle := DropCycleEvents(lost);
    if n == 0 {
    } else {
      DropCycle(config, remaining, sends, lost);
      RunAppend(config, s, cycle, Repeated(n - 1, cycle));
      if remaining > 0 && MayReplay(config) {
        DropsRun(config, remaining - 1, sends + 1, n - 1, lost);
      } else {
        NoDisconnect(n - 1, cycle);
        FailedIgnores(config, GivenUpState(config, remaining, sends), Repeated(n - 1, cycle));
      }
    }
  }

  lemma DropCycle(config: Config, remaining: nat, sends: nat, lost: ErrorKind)
    requires Configured(config) && Inv(config, ReadyState(config, remaining, sends)) && Transient(lost)
    ensures var t := Run(config, ReadyState(config, remaining, sends), DropCycleEvents(lost));
            t == if remaining > 0 && MayReplay(config) then ReadyState(config, remaining - 1, sends + 1)
                 else GivenUpState(config, remaining, sends)
  {
    hide Run, Next, Inv, Configured, Lost, MayReplay, Transient;
    var s := ReadyState(config, remaining, sends);
    LossRun(config, remaining, sends, lost);
    RunAppend(config, s, [Send, Error(lost)], [SetupStarted, Reconnected]);
    assert [Send, Error(lost), SetupStarted, Reconnected] == [Send, Error(lost)] + [SetupStarted, Reconnected];
    if remaining > 0 && MayReplay(config) {
      ReconnectSteps(config, remaining - 1, sends + 1);
      RunTwo(config, ReconnectingState(config, remaining - 1, sends + 1), SetupStarted, Reconnected);
    } else {
      FailedIgnores(config, GivenUpState(config, remaining, sends), [SetupStarted, Reconnected]);
    }
  }

  /** The state a drop script ends in. */
  function DropOutcome(config: Config, drops: nat, answer: seq<byte>): Session.State
    requires Configured(config) && Answers(config, answer)
  {
    StatusCount(config, answer);
    if drops == 0 || (MayReplay(config) && drops <= config.budget) then
      CompletedState(config, if drops == 0 then config.budget else config.budget - drops, drops,
                     ResponseOf(QueryOf(config), answer).statuses)
    else if MayReplay(config) then GivenUpState(config, 0, config.budget)
    else GivenUpState(config, config.budget, 0)
  }

  lemma DropScriptRun(config: Config, drops: nat, lost: ErrorKind, answer: seq<byte>)
    requires Configured(config) && Answers(config, answer) && Transient(lost)
    ensures Inv(config, INITIAL)
    ensures Run(config, INITIAL, DropScript(drops, lost, answer)) == DropOutcome(config, drops, answer)
  {
    hide Run, Next, Inv, Configured, Lost, Repeated, Answers, ResponseOf, QueryOf, Transient;
    hide DropOutcome, MayReplay, DropCycleEvents;
    var drop, recovery := Repeated(drops, DropCycleEvents(lost)), [Send, Responded(answer)];
    var ready := ReadyState(config, config.budget, 0);
    BeginRun(config, drop + recovery);
    RunAppend(config, ready, drop, recovery);
    DropsRun(config, config.budget, 0, drops, lost);
    DropRecovery(config, drops, Run(config, ready, drop), answer);
  }

  lemma DropRecovery(config: Config, drops: nat, s: Session.State, answer: seq<byte>)
    requires Configured(config) && Answers(config, answer) && Inv(config, s)
    requires s == if drops == 0 then ReadyState(config, config.budget, 0)
                  else if !MayReplay(config) then GivenUpState(config, config.budget, 0)
                  else if drops <= config.budget then ReadyState(config, config.budget - drops, drops)
                  else GivenUpState(config, 0, config.budget)
    ensures Run(config, s, [Send, Responded(answer)]) == DropOutcome(config, drops, answer)
  {
    hide Next, Inv, Configured, Lost, Answers, ResponseOf, QueryOf, Run;
    if drops == 0 || (MayReplay(config) && drops <= config.budget) {
      RecoverRun(config, s.remaining, drops, answer);
    } else {
      FailedIgnores(config, s, [Send, Responded(answer)]);
    }
  }

  /** For every allowance and drop count, repeated lost replies take exactly the
      predicted number of sends and succeed exactly when predicted. */
  lemma DropsMatchClosedForm(config: Config, mode: RetryMode, drops: nat, lost: ErrorKind, answer: seq<byte>)
    requires Configured(config) && Answers(config, answer) && lost in [Timeout, PeerDisconnected, TransportError]
    requires (!config.write || config.allowMutating) == (mode in [ReadRetry, RawOptIn, WriteOptIn])
    ensures Inv(config, INITIAL)
    ensures var s := Run(config, INITIAL, DropScript(drops, lost, answer));
            && (s.sends, s.phase == Completed) == ExpectedAttempts(mode, config.budget, drops)
            && (s.phase == Completed ==> s.remaining + drops == config.budget)
  {
    hide Run, Inv, Configured, Answers, Lost, ResponseOf, QueryOf, InFlight, Zip;
    DropScriptRun(config, drops, lost, answer);
  }

  // --- the bound on an operation's length is reached ---

  lemma ChangesCons(config: Config, s: Session.State, event: Session.Event, rest: seq<Session.Event>)
    requires Configured(config) && Inv(config, s) && Active(s)
    ensures Inv(config, Next(config, s, event).0)
    ensures var t := Next(config, s, event).0;
            Changes(config, s, [event] + rest) == (if t == s then 0 else 1) + Changes(config, t, rest)
  {
    hide Next, Inv, Configured;
    NextInv(config, s, event);
    assert ([event] + rest)[1..] == rest;
  }

  /** Losing every reply the allowance can pay for, then being answered, takes every
      state change `OperationsEnd` allows. */
  lemma {:induction false} BoundIsReached(
    config: Config, remaining: nat, sends: nat, lost: ErrorKind, answer: seq<byte>)
    requires Configured(config) && MayReplay(config) && Transient(lost) && Answers(config, answer)
    requires Inv(config, ReadyState(config, remaining, sends))
    ensures Changes(config, ReadyState(config, remaining, sends),
                    Repeated(remaining, DropCycleEvents(lost)) + [Send, Responded(answer)]) == 4 * remaining + 2
    decreases remaining
  {
    hide Configured, Lost, ResponseOf, Inv, Next, Changes, DropCycleEvents;
    if remaining == 0 {
      AnsweredChanges(config, remaining, sends, answer);
      assert Repeated(0, DropCycleEvents(lost)) + [Send, Responded(answer)] == [Send, Responded(answer)];
    } else {
      var rest := Repeated(remaining - 1, DropCycleEvents(lost)) + [Send, Responded(answer)];
      CycleChanges(config, remaining, sends, lost, rest);
      BoundIsReached(config, remaining - 1, sends + 1, lost, answer);
      UnrollRepeated(remaining, DropCycleEvents(lost), [Send, Responded(answer)]);
    }
  }

  lemma AnsweredChanges(config: Config, remaining: nat, sends: nat, answer: seq<byte>)
    requires Configured(config) && Answers(config, answer) && Inv(config, ReadyState(config, remaining, sends))
    ensures Changes(config, ReadyState(config, remaining, sends), [Send, Responded(answer)]) == 2
  {
    hide Configured, Lost, ResponseOf, Inv, Next;
    var s, t := ReadyState(config, remaining, sends), AwaitingState(config, remaining, sends);
    SendStep(config, remaining, sends);
    AnsweredStep(config, remaining, sends, answer);
    assert [Send, Responded(answer)] == [Send] + ([Responded(answer)] + []);
    ChangesCons(config, s, Send, [Responded(answer)] + []);
    ChangesCons(config, t, Responded(answer), []);
  }

  lemma UnrollRepeated(n: nat, events: seq<Session.Event>, tail: seq<Session.Event>)
    requires n > 0
    ensures Repeated(n, events) + tail == events + (Repeated(n - 1, events) + tail)
  {
  }

  lemma CycleChanges(config: Config, remaining: nat, sends: nat, lost: ErrorKind, rest: seq<Session.Event>)
    requires Configured(config) && MayReplay(config) && Transient(lost) && remaining > 0
    requires Inv(config, ReadyState(config, remaining, sends))
    ensures Inv(config, ReadyState(config, remaining - 1, sends + 1))
    ensures Changes(config, ReadyState(config, remaining, sends),
                    DropCycleEvents(lost) + rest)
            == 4 + Changes(config, ReadyState(config, remaining - 1, sends + 1), rest)
  {
    hide Next, Inv, Configured, Lost, Changes, Transient;
    var s, t := ReadyState(config, remaining, sends), AwaitingState(config, remaining, sends);
    var u, v := ReconnectingState(config, remaining - 1, sends + 1), SettingUpState(config, remaining - 1, sends + 1);
    SendStep(config, remaining, sends);
    LossStep(config, remaining, sends, lost);
    SetupSteps(config, remaining - 1, sends + 1);
    assert DropCycleEvents(lost) + rest == [Send] + ([Error(lost)] + ([SetupStarted] + ([Reconnected] + rest)));
    ChangesCons(config, s, Send, [Error(lost)] + ([SetupStarted] + ([Reconnected] + rest)));
    ChangesCons(config, t, Error(lost), [SetupStarted] + ([Reconnected] + rest));
    ChangesCons(config, u, SetupStarted, [Reconnected] + rest);
    ChangesCons(config, v, Reconnected, rest);
  }
}
