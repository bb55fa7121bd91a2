/** The active-request session oracle: one operation at a time over a connection
    that may be lost and re-established while a replay allowance lasts. */
module Session {
  import opened Bytes
  import opened Wire
  import opened Progress
  import opened Response

  datatype Config = Config(
    write: bool, allowMutating: bool, budget: nat, reference: u16, locations: seq<Location>)

  /** A configuration the oracle accepts; the allowance itself is unbounded here. */
  predicate Configured(config: Config) {
    1 <= |config.locations| <= 20 &&
    RequestOf(config.reference, RangesOf(config.locations), config.write).Some?
  }

  function QueryOf(config: Config): (query: Query)
    requires Configured(config)
    ensures |query.counts| == |config.locations| < 256
  {
    Query(config.write, config.reference, CountsOf(RangesOf(config.locations)))
  }

  datatype Phase = Idle | Ready | Awaiting | ReconnectCotp | ReconnectSetup | Completed | Failed | Shut

  datatype State = State(
    lifecycle: Lifecycle, phase: Phase, remaining: nat, sends: nat, active: Option<u16>,
    history: seq<Attempt>, pending: seq<Location>)

  const INITIAL := State.State(Connected, Idle, 0, 0, None, [], [])

  datatype Event =
    | Begin | Send | Error(kind: ErrorKind) | SetupStarted | Reconnected | Responded(pdu: seq<byte>) | Disconnect

  datatype Category =
    | NotConnected | AlreadyActive | SendPhase | WriteProgress
    | FailurePhase | ReconnectPhase | ResponsePhase | ResponseCodec

  datatype Result = Accept | Retry(permitted: bool) | Reject(category: Category)

  // --- the transition function ---

  predicate MayReplay(config: Config) { !config.write || config.allowMutating }

  predicate Transient(kind: ErrorKind) { kind in [Timeout, PeerDisconnected, TransportError] }

  predicate Permitted(config: Config, s: State, kind: ErrorKind) {
    s.lifecycle != Closed && s.remaining > 0 && Transient(kind) && MayReplay(config)
  }

  function Finish(s: State, outcomes: seq<Outcome>): State
    requires |outcomes| == |s.pending|
  {
    s.(history := s.history + Zip(s.pending, outcomes), pending := [])
  }

  function FinishAll(s: State, outcome: Outcome): State {
    s.(history := s.history + Marked(s.pending, outcome), pending := [])
  }

  function Fail(config: Config, s: State, kind: ErrorKind): State {
    if Permitted(config, s, kind) then
      var t := if config.write && s.phase == Awaiting then FinishAll(s, ReplayedUnknown) else s;
      t.(remaining := s.remaining - 1, lifecycle := Disconnected, phase := ReconnectCotp)
    else
      var t := if config.write && kind == PlcRejected && s.phase == Awaiting then FinishAll(s, GlobalRejected) else s;
      t.(lifecycle := Disconnected, phase := Failed, active := None)
  }

  predicate Fallible(s: State) {
    s.active.Some? && s.phase in [Awaiting, ReconnectCotp, ReconnectSetup]
  }

  function Next(config: Config, s: State, event: Event): (r: (State, Result))
    requires Configured(config) && Inv(config, s)
  {
    match event
    case Begin =>
      if s.lifecycle != Connected then (s, Reject(NotConnected))
      else if s.active.Some? then (s, Reject(AlreadyActive))
      else (State.State(s.lifecycle, Ready, config.budget, 0, Some(config.reference), [], []), Accept)
    case Send =>
      if s.lifecycle != Connected || s.active.None? || s.phase != Ready then (s, Reject(SendPhase))
      else if config.write && s.pending != [] then (s, Reject(WriteProgress))
      else (s.(pending := if config.write then config.locations else s.pending,
               sends := s.sends + 1, phase := Awaiting), Accept)
    case Error(kind) =>
      if Fallible(s) then (Fail(config, s, kind), Retry(Permitted(config, s, kind)))
      else (s, Reject(FailurePhase))
    case SetupStarted =>
      if s.active.None? || s.phase != ReconnectCotp then (s, Reject(ReconnectPhase))
      else (s.(phase := ReconnectSetup), Accept)
    case Reconnected =>
      if s.active.None? || s.phase != ReconnectSetup || s.lifecycle != Disconnected then (s, Reject(ReconnectPhase))
      else (s.(lifecycle := Connected, phase := Ready), Accept)
    case Responded(pdu) =>
      if s.lifecycle != Connected || s.active.None? || s.phase != Awaiting then (s, Reject(ResponsePhase))
      else (match ResponseOf(QueryOf(config), pdu)
            case Rejected(kind) => (Fail(config, s, kind), Reject(ResponseCodec))
            case Accepted(statuses) =>
              (var t := if config.write then Finish(s, statuses) else s;
               t.(active := None, phase := Completed), Accept))
    case Disconnect => (s.(lifecycle := Closed, active := None, phase := Shut), Accept)
  }

  // --- what every reachable state satisfies ---

  /** The locations one send puts in flight; a read tracks none. */
  function InFlight(config: Config): seq<Location> {
    if config.write then config.locations else []
  }

  /** `n` consecutive sends, each lost and replayed. */
  function Lost(config: Config, n: nat): seq<Attempt> {
    if n == 0 then [] else Lost(config, n - 1) + Marked(InFlight(config), ReplayedUnknown)
  }

  /** One send answered in full. */
  predicate Settled(config: Config, block: seq<Attempt>) {
    LocationsOf(block) == InFlight(config) && forall i :: 0 <= i < |block| ==> IsAcknowledged(block[i].outcome)
  }

  predicate AllReplayed(config: Config, s: State) {
    s.pending == [] && s.history == Lost(config, s.sends)
  }

  predicate LastInFlight(config: Config, s: State) {
    s.sends > 0 && s.pending == InFlight(config) && s.history == Lost(config, s.sends - 1)
  }

  predicate LastRejected(config: Config, s: State) {
    s.sends > 0 && s.pending == [] &&
    s.history == Lost(config, s.sends - 1) + Marked(InFlight(config), GlobalRejected)
  }

  predicate LastSettled(config: Config, s: State) {
    && s.sends > 0 && s.pending == [] && |s.history| >= |InFlight(config)|
    && var cut := |s.history| - |InFlight(config)|;
       s.history[..cut] == Lost(config, s.sends - 1) && Settled(config, s.history[cut..])
  }

  /** The attempt history, by phase: every send before the last was replayed. */
  predicate Recorded(config: Config, s: State) {
    match s.phase
    case Idle => AllReplayed(config, s) && s.sends == 0
    case Ready => AllReplayed(config, s)
    case ReconnectCotp => AllReplayed(config, s) && s.sends > 0
    case ReconnectSetup => AllReplayed(config, s) && s.sends > 0
    case Awaiting => LastInFlight(config, s)
    case Completed => LastSettled(config, s)
    case Failed => s.sends > 0 && (AllReplayed(config, s) || LastInFlight(config, s) || LastRejected(config, s))
    case Shut =>
      AllReplayed(config, s) || LastInFlight(config, s) || LastRejected(config, s) || LastSettled(config, s)
  }

  /** The phase determines the lifecycle and whether a reference is active. */
  predicate PhaseDetermines(config: Config, s: State) {
    match s.phase
    case Idle | Completed => s.lifecycle == Connected && s.active == None
    case Ready | Awaiting => s.lifecycle == Connected && s.active == Some(config.reference)
    case ReconnectCotp | ReconnectSetup => s.lifecycle == Disconnected && s.active == Some(config.reference)
    case Failed => s.lifecycle == Disconnected && s.active == None
    case Shut => s.lifecycle == Closed && s.active == None
  }

  /** Each send beyond the first was paid for out of the allowance. */
  predicate Paid(config: Config, s: State) {
    && s.remaining <= config.budget
    && s.sends + s.remaining <= config.budget + (if s.phase in [Ready, ReconnectCotp, ReconnectSetup] then 0 else 1)
    && (!MayReplay(config) ==> s.phase !in [ReconnectCotp, ReconnectSetup] && (s.phase == Ready ==> s.sends == 0))
    && (!MayReplay(config) ==> s.sends <= 1)
  }

  predicate Inv(config: Config, s: State) {
    PhaseDetermines(config, s) && Recorded(config, s) && Paid(config, s)
  }

  lemma InitialInv(config: Config)
    ensures Inv(config, INITIAL)
  {
  }

  lemma StatusCount(config: Config, pdu: seq<byte>)
    requires Configured(config) && ResponseOf(QueryOf(config), pdu).Accepted?
    ensures |ResponseOf(QueryOf(config), pdu).statuses| == |InFlight(config)|
  {
  }

  lemma FinishSettles(config: Config, s: State, statuses: seq<Status>)
    requires LastInFlight(config, s) && |statuses| == |s.pending|
    ensures LastSettled(config, Finish(s, statuses))
    ensures Finish(s, statuses).history == Lost(config, s.sends - 1) + Zip(InFlight(config), statuses)
  {
    var block := Zip(s.pending, statuses);
    var t := Finish(s, statuses);
    assert t.history[..|s.history|] == s.history && t.history[|s.history|..] == block;
    assert LocationsOf(block) == InFlight(config);
  }

  /** Losing what is in flight makes one more replayed block. */
  lemma ReplayIsLost(config: Config, s: State)
    requires LastInFlight(config, s)
    ensures AllReplayed(config, if config.write then FinishAll(s, ReplayedUnknown) else s)
  {
    LostStep(config, s.sends);
    hide Lost;
    if !config.write {
      assert s.history + Marked([], ReplayedUnknown) == s.history;
    }
  }

  lemma RejectIsRecorded(config: Config, s: State)
    requires LastInFlight(config, s)
    ensures LastRejected(config, FinishAll(s, GlobalRejected))
  {
    hide Lost;
  }

  lemma ReplayInv(config: Config, s: State, kind: ErrorKind)
    requires Inv(config, s) && s.phase == Awaiting && Permitted(config, s, kind)
    ensures Inv(config, Fail(config, s, kind))
  {
    ReplayIsLost(config, s);
    hide Lost, Marked, LastSettled, LastRejected, InFlight;
  }

  lemma GiveUpInv(config: Config, s: State, kind: ErrorKind)
    requires Inv(config, s) && s.phase == Awaiting && !Permitted(config, s, kind)
    ensures Inv(config, Fail(config, s, kind))
  {
    RejectIsRecorded(config, s);
    hide Lost, Marked, LastSettled, InFlight, Permitted, MayReplay;
  }

  lemma ReconnectFailInv(config: Config, s: State, kind: ErrorKind)
    requires Inv(config, s) && s.phase in [ReconnectCotp, ReconnectSetup]
    ensures Inv(config, Fail(config, s, kind))
  {
    hide Lost, Marked, LastSettled, LastInFlight, LastRejected;
  }

  lemma FailInv(config: Config, s: State, kind: ErrorKind)
    requires Inv(config, s) && Fallible(s)
    ensures Inv(config, Fail(config, s, kind))
  {
    hide Inv, Fail, Permitted;
    if s.phase == Awaiting && Permitted(config, s, kind) {
      ReplayInv(config, s, kind);
    } else if s.phase == Awaiting {
      GiveUpInv(config, s, kind);
    } else {
      ReconnectFailInv(config, s, kind);
    }
  }

  lemma LostStep(config: Config, n: nat)
    requires n > 0
    ensures Lost(config, n) == Lost(config, n - 1) + Marked(InFlight(config), ReplayedUnknown)
  {
  }

  lemma ErrorInv(config: Config, s: State, kind: ErrorKind)
    requires Configured(config) && Inv(config, s)
    ensures Inv(config, Next(config, s, Error(kind)).0)
  {
    hide Inv, Fail, Configured;
    if Fallible(s) {
      FailInv(config, s, kind);
    }
  }

  lemma RespondedInv(config: Config, s: State, pdu: seq<byte>)
    requires Configured(config) && Inv(config, s)
    ensures Inv(config, Next(config, s, Responded(pdu)).0)
  {
    hide ResponseOf, Configured, Fail, Finish, Recorded, Paid, QueryOf;
    if s.phase == Awaiting {
      if ResponseOf(QueryOf(config), pdu).Accepted? {
        StatusCount(config, pdu);
        InFlightPending(config, s);
        CompletionInv(config, s, ResponseOf(QueryOf(config), pdu).statuses);
      } else {
        FailInv(config, s, ResponseOf(QueryOf(config), pdu).kind);
      }
    }
  }

  lemma InFlightPending(config: Config, s: State)
    requires Recorded(config, s) && s.phase == Awaiting
    ensures s.pending == InFlight(config)
  {
  }

  lemma DisconnectInv(config: Config, s: State)
    requires Configured(config) && Inv(config, s)
    ensures Inv(config, Next(config, s, Disconnect).0)
  {
    hide Configured, Settled, Lost, Marked;
  }

  lemma OtherInv(config: Config, s: State, event: Event)
    requires Configured(config) && Inv(config, s)
    requires event in [Begin, Send, SetupStarted, Reconnected]
    ensures Inv(config, Next(config, s, event).0)
  {
    LostNothing(config);
    hide Configured, Lost, Marked, LastSettled, LastRejected;
  }

  lemma NextInv(config: Config, s: State, event: Event)
    requires Configured(config) && Inv(config, s)
    ensures Inv(config, Next(config, s, event).0)
    ensures Next(config, s, event).1 != Reject(WriteProgress)
  {
    NeverWriteProgress(config, s, event);
    hide Next, Inv, Configured;
    match event
    case Error(kind) => ErrorInv(config, s, kind);
    case Responded(pdu) => RespondedInv(config, s, pdu);
    case Disconnect => DisconnectInv(config, s);
    case _ => OtherInv(config, s, event);
  }

  lemma NeverWriteProgress(config: Config, s: State, event: Event)
    requires Configured(config) && Inv(config, s)
    ensures Next(config, s, event).1 != Reject(WriteProgress)
  {
    hide Lost, Settled, Fail, Finish, Configured, ResponseOf;
  }

  lemma LostNothing(config: Config)
    ensures Lost(config, 0) == []
  {
  }

  lemma FinishNothing(s: State, outcomes: seq<Outcome>)
    requires s.pending == [] && outcomes == []
    ensures Finish(s, outcomes) == s
  {
    assert Zip(s.pending, outcomes) == [];
    assert s.history + [] == s.history;
  }

  lemma CompletionInv(config: Config, s: State, statuses: seq<Status>)
    requires Inv(config, s) && s.phase == Awaiting && |statuses| == |s.pending|
    ensures var t := if config.write then Finish(s, statuses) else s;
            Inv(config, t.(active := None, phase := Completed))
  {
    hide Lost, Settled;
    FinishSettles(config, s, statuses);
    if !config.write {
      FinishNothing(s, statuses);
    }
  }
}
