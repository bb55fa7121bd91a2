/** The session oracle as it runs: an object updated in place by each event, and the
    trace of snapshots it leaves, both tied to the transition function. */
module SessionMachine {
  import opened Bytes
  import opened Wire
  import opened Progress
  import opened Response
  import opened Session
  import opened SessionRuns

  datatype Snapshot = Snapshot(
    lifecycle: Lifecycle, remaining: nat, active: Option<u16>, phase: Phase, sends: nat, attempts: seq<Attempt>)

  datatype Step = Step(result: Result, snapshot: Snapshot)

  function SnapshotOf(s: Session.State): Snapshot {
    Snapshot(s.lifecycle, s.remaining, s.active, s.phase, s.sends, AttemptsOf(s))
  }

  class Machine {
    const config: Config
    var lifecycle: Lifecycle
    var phase: Phase
    var remaining: nat
    var sends: nat
    var active: Option<u16>
    var history: seq<Attempt>
    var pending: seq<Location>

    ghost function View(): Session.State
      reads this
    {
      Session.State.State(lifecycle, phase, remaining, sends, active, history, pending)
    }

    ghost predicate Valid()
      reads this
    {
      Configured(config) && Inv(config, View())
    }

    constructor (config: Config)
      requires Configured(config)
      ensures Valid() && this.config == config && View() == INITIAL
    {
      this.config := config;
      lifecycle, phase := Connected, Idle;
      remaining, sends := 0, 0;
      active := None;
      history, pending := [], [];
      new;
      InitialInv(config);
    }

    /** Settles what is in flight. The strict pairing cannot mismatch: callers owe
        one outcome per pending location. */
    method FinishEach(outcomes: seq<Outcome>)
      requires |outcomes| == |pending|
      modifies this`history, this`pending
      ensures View() == Finish(old(View()), outcomes)
    {
      history := history + Zip(pending, outcomes);
      pending := [];
    }

    method FinishWith(outcome: Outcome)
      modifies this`history, this`pending
      ensures View() == FinishAll(old(View()), outcome)
    {
      history := history + Marked(pending, outcome);
      pending := [];
    }

    method FailWith(kind: ErrorKind) returns (result: Result)
      requires Valid() && Fallible(View())
      modifies this
      ensures Valid() && View() == Fail(config, old(View()), kind)
      ensures result == Retry(Permitted(config, old(View()), kind))
    {
      hide Lost, Settled, Configured, Paid, Marked;
      FailInv(config, View(), kind);
      var permitted := lifecycle != Closed && remaining > 0 && Transient(kind)
                       && (!config.write || config.allowMutating);
      if permitted {
        remaining := remaining - 1;
        if config.write && phase == Awaiting {
          FinishWith(ReplayedUnknown);
        }
        lifecycle, phase := Disconnected, ReconnectCotp;
      } else {
        if config.write && kind == PlcRejected && phase == Awaiting {
          FinishWith(GlobalRejected);
        }
        lifecycle, phase, active := Disconnected, Failed, None;
      }
      result := Retry(permitted);
    }

    method BeginOperation() returns (result: Result)
      requires Valid()
      modifies this
      ensures Valid() && (View(), result) == Next(config, old(View()), Begin)
    {
      NextInv(config, View(), Begin);
      if lifecycle != Connected {
        return Reject(NotConnected);
      }
      if active.Some? {
        return Reject(AlreadyActive);
      }
      remaining, active, phase, sends := config.budget, Some(config.reference), Ready, 0;
      history, pending := [], [];
      result := Accept;
    }

    method SendRequest() returns (result: Result)
      requires Valid()
      modifies this
      ensures Valid() && (View(), result) == Next(config, old(View()), Send)
      ensures result != Reject(WriteProgress)
    {
      hide Lost, Settled, Configured;
      NextInv(config, View(), Send);
      if lifecycle != Connected || active.None? || phase != Ready {
        return Reject(SendPhase);
      }
      if config.write && pending != [] {
        return Reject(WriteProgress);
      }
      if config.write {
        pending := config.locations;
      }
      sends := sends + 1;
      phase := Awaiting;
      result := Accept;
    }

    method ReportError(kind: ErrorKind) returns (result: Result)
      requires Valid()
      modifies this
      ensures Valid() && (View(), result) == Next(config, old(View()), Error(kind))
    {
      if active.Some? && (phase == Awaiting || phase == ReconnectCotp || phase == ReconnectSetup) {
        result := FailWith(kind);
      } else {
        result := Reject(FailurePhase);
      }
    }

    method StartSetup() returns (result: Result)
      requires Valid()
      modifies this
      ensures Valid() && (View(), result) == Next(config, old(View()), SetupStarted)
    {
      NextInv(config, View(), SetupStarted);
      if active.None? || phase != ReconnectCotp {
        return Reject(ReconnectPhase);
      }
      phase := ReconnectSetup;
      result := Accept;
    }

    method FinishReconnect() returns (result: Result)
      requires Valid()
      modifies this
      ensures Valid() && (View(), result) == Next(config, old(View()), Reconnected)
    {
      NextInv(config, View(), Reconnected);
      if active.None? || phase != ReconnectSetup || lifecycle != Disconnected {
        return Reject(ReconnectPhase);
      }
      lifecycle, phase := Connected, Ready;
      result := Accept;
    }

    method ReceiveResponse(pdu: seq<byte>) returns (result: Result)
      requires Valid()
      modifies this
      ensures Valid() && (View(), result) == Next(config, old(View()), Responded(pdu))
    {
      hide ResponseOf, Lost, Settled, Paid, Configured, Zip;
      NextInv(config, View(), Responded(pdu));
      if lifecycle != Connected || active.None? || phase != Awaiting {
        return Reject(ResponsePhase);
      }
      var decoded := Decode(QueryOf(config), pdu);
      match decoded
      case Rejected(kind) =>
        var _ := FailWith(kind);
        result := Reject(ResponseCodec);
      case Accepted(statuses) =>
        StatusCount(config, pdu);
        if config.write {
          FinishEach(statuses);
        }
        active, phase := None, Completed;
        result := Accept;
    }

    method Close() returns (result: Result)
      requires Valid()
      modifies this
      ensures Valid() && (View(), result) == Next(config, old(View()), Disconnect)
    {
      NextInv(config, View(), Disconnect);
      lifecycle, active, phase := Closed, None, Shut;
      result := Accept;
    }

    method Handle(event: Session.Event) returns (result: Result)
      requires Valid()
      modifies this
      ensures Valid() && (View(), result) == Next(config, old(View()), event)
    {
      match event
      case Begin => result := BeginOperation();
      case Send => result := SendRequest();
      case Error(kind) => result := ReportError(kind);
      case SetupStarted => result := StartSetup();
      case Reconnected => result := FinishReconnect();
      case Responded(pdu) => result := ReceiveResponse(pdu);
      case Disconnect => result := Close();
    }

    /** The attempts so far, those in flight last, and every other visible field. */
    method Observe() returns (snapshot: Snapshot)
      ensures snapshot == SnapshotOf(View())
    {
      var attempts := history + Marked(pending, Pending);
      snapshot := Snapshot(lifecycle, remaining, active, phase, sends, attempts);
    }
  }

  /** One step per event: what it is answered with, and the snapshot of the state that
      the run so far has reached. */
  function StepsOf(config: Config, events: seq<Session.Event>): seq<Step>
    requires Configured(config)
    decreases |events|
  {
    if events == [] then []
    else
      InitialInv(config);
      var front, event := events[..|events| - 1], events[|events| - 1];
      StepsOf(config, front)
      + [Step(Next(config, Run(config, INITIAL, front), event).1, SnapshotOf(Run(config, INITIAL, events)))]
  }

  lemma StepTaken(config: Config, events: seq<Session.Event>, i: nat)
    requires Configured(config) && i < |events|
    ensures Inv(config, INITIAL)
    ensures var (t, result) := Next(config, Run(config, INITIAL, events[..i]), events[i]);
            && Run(config, INITIAL, events[..i + 1]) == t
            && StepsOf(config, events[..i + 1]) == StepsOf(config, events[..i]) + [Step(result, SnapshotOf(t))]
  {
    InitialInv(config);
    hide Next, Configured, Inv, SnapshotOf, Run;
    assert events[..i + 1] == events[..i] + [events[i]];
    assert events[..i + 1][..i] == events[..i];
    RunSnoc(config, INITIAL, events[..i], events[i]);
  }

  lemma NothingRun(config: Config)
    requires Configured(config)
    ensures Inv(config, INITIAL) && Run(config, INITIAL, []) == INITIAL && StepsOf(config, []) == []
  {
    InitialInv(config);
  }

  /** The trace of a run. */
  method SessionTrace(config: Config, events: seq<Session.Event>) returns (steps: seq<Step>)
    requires Configured(config)
    ensures steps == StepsOf(config, events)
  {
    NothingRun(config);
    hide Next, Configured, Inv, StepsOf, Run, SnapshotOf;
    steps := [];
    var machine := new Machine(config);
    assert events[..0] == [];
    for i := 0 to |events|
      invariant fresh(machine) && machine.Valid() && machine.config == config && Inv(config, INITIAL)
      invariant machine.View() == Run(config, INITIAL, events[..i])
      invariant steps == StepsOf(config, events[..i])
    {
      StepTaken(config, events, i);
      var result := machine.Handle(events[i]);
      var snapshot := machine.Observe();
      steps := steps + [Step(result, snapshot)];
    }
    assert events[..|events|] == events;
  }
}
