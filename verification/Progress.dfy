/** The abstract write-progress machine: locations in flight are resolved exactly
    once, by an acknowledgement, a replay, or a global rejection. */
module Progress {
  import opened Bytes
  import opened Wire

  datatype Outcome = Pending | ReplayedUnknown | GlobalRejected | Success | Failure(code: byte)

  type Status = o: Outcome | o.Success? || o.Failure? witness Success

  datatype Attempt = Attempt(location: Location, outcome: Outcome)

  datatype Event = Dispatch(locations: seq<Location>) | Acknowledge(results: seq<Status>) | Replay | GlobalReject

  datatype State = State(attempts: seq<Attempt>, pending: seq<Location>)

  datatype Report = Report(
    attempts: seq<Attempt>, acknowledged: nat, rejected: nat, replayedUncertain: nat, uncertain: nat)

  function StatusOf(code: byte): Status {
    if code == 255 then Success else Failure(code)
  }

  function Statuses(codes: seq<byte>): (s: seq<Status>)
    ensures |s| == |codes| && forall i :: 0 <= i < |s| ==> s[i] == StatusOf(codes[i])
  {
    seq(|codes|, i requires 0 <= i < |codes| => StatusOf(codes[i]))
  }

  function Zip(locations: seq<Location>, outcomes: seq<Outcome>): (s: seq<Attempt>)
    requires |locations| == |outcomes|
    ensures |s| == |locations|
    ensures forall i :: 0 <= i < |s| ==> s[i] == Attempt(locations[i], outcomes[i])
  {
    seq(|locations|, i requires 0 <= i < |locations| => Attempt(locations[i], outcomes[i]))
  }

  function Marked(locations: seq<Location>, outcome: Outcome): (s: seq<Attempt>)
    ensures |s| == |locations|
    ensures forall i :: 0 <= i < |s| ==> s[i] == Attempt(locations[i], outcome)
  {
    seq(|locations|, i requires 0 <= i < |locations| => Attempt(locations[i], outcome))
  }

  function LocationsOf(attempts: seq<Attempt>): (s: seq<Location>)
    ensures |s| == |attempts| && forall i :: 0 <= i < |s| ==> s[i] == attempts[i].location
  {
    seq(|attempts|, i requires 0 <= i < |attempts| => attempts[i].location)
  }

  function Step(s: State, event: Event): Option<State> {
    match event
    case Dispatch(locations) =>
      if s.pending != [] || locations == [] then None else Some(s.(pending := locations))
    case Acknowledge(results) =>
      if |results| != |s.pending| then None
      else Some(State(s.attempts + Zip(s.pending, results), []))
    case Replay => Some(State(s.attempts + Marked(s.pending, ReplayedUnknown), []))
    case GlobalReject => Some(State(s.attempts + Marked(s.pending, GlobalRejected), []))
  }

  function Trace(events: seq<Event>): Option<State> {
    if events == [] then Some(State([], []))
    else match Trace(events[..|events| - 1])
      case None => None
      case Some(s) => Step(s, events[|events| - 1])
  }

  /** Every attempt so far, those still in flight last. */
  function Attempts(s: State): seq<Attempt> {
    s.attempts + Marked(s.pending, Pending)
  }

  predicate IsAcknowledged(o: Outcome) { o.Success? || o.Failure? }

  function Count(attempts: seq<Attempt>, keep: Outcome -> bool): nat {
    if attempts == [] then 0
    else Count(attempts[..|attempts| - 1], keep) + (if keep(attempts[|attempts| - 1].outcome) then 1 else 0)
  }

  function ReportOf(attempts: seq<Attempt>): Report {
    Report(attempts,
           Count(attempts, IsAcknowledged),
           Count(attempts, (o: Outcome) => o == GlobalRejected),
           Count(attempts, (o: Outcome) => o == ReplayedUnknown),
           Count(attempts, (o: Outcome) => o == Pending))
  }

  lemma TracePrefix(events: seq<Event>, n: nat)
    requires n <= |events|
    ensures Trace(events).Some? ==> Trace(events[..n]).Some?
  {
    if n < |events| {
      assert events[..|events| - 1][..n] == events[..n];
      TracePrefix(events[..|events| - 1], n);
    } else {
      assert events[..n] == events;
    }
  }

  lemma TraceSnoc(events: seq<Event>, event: Event)
    ensures Trace(events + [event]) == if Trace(events).None? then None else Step(Trace(events).value, event)
  {
    assert (events + [event])[..|events|] == events;
  }

  lemma TraceNext(events: seq<Event>, index: nat)
    requires index < |events| && Trace(events[..index]).Some?
    ensures Trace(events[..index + 1]) == Step(Trace(events[..index]).value, events[index])
    ensures Trace(events[..index + 1]).None? ==> Trace(events).None?
  {
    assert events[..index + 1] == events[..index] + [events[index]];
    TraceSnoc(events[..index], events[index]);
    TracePrefix(events, index + 1);
  }

  method DecodeProgress(events: seq<Event>) returns (report: Option<Report>)
    ensures report == if Trace(events).None? then None else Some(ReportOf(Attempts(Trace(events).value)))
  {
    var attempts: seq<Attempt>, pending: seq<Location> := [], [];
    assert events[..0] == [];
    assert Trace(events[..0]) == Some(State(attempts, pending));
    hide Trace, Zip, Marked, ReportOf, Count;
    for index := 0 to |events|
      invariant Trace(events[..index]) == Some(State(attempts, pending))
    {
      TraceNext(events, index);
      match events[index]
      case Dispatch(locations) =>
        if pending != [] || locations == [] {
          return None;
        }
        pending := locations;
      case Acknowledge(results) =>
        if |results| != |pending| {
          return None;
        }
        attempts := attempts + Zip(pending, results);
        pending := [];
      case Replay =>
        attempts := attempts + Marked(pending, ReplayedUnknown);
        pending := [];
      case GlobalReject =>
        attempts := attempts + Marked(pending, GlobalRejected);
        pending := [];
    }
    assert events[..|events|] == events;
    attempts := attempts + Marked(pending, Pending);
    return Some(ReportOf(attempts));
  }

  /** Everything ever sent, in order. */
  function Sent(events: seq<Event>): seq<Location> {
    if events == [] then []
    else Sent(events[..|events| - 1]) +
         (match events[|events| - 1] case Dispatch(locations) => locations case _ => [])
  }

  /** Each location sent appears once, in sending order, under exactly one outcome:
      the four counts are a partition of the attempts. */
  lemma {:induction false} Conservation(events: seq<Event>)
    requires Trace(events).Some?
    ensures var report := ReportOf(Attempts(Trace(events).value));
            && LocationsOf(report.attempts) == Sent(events)
            && report.acknowledged + report.rejected + report.replayedUncertain + report.uncertain
               == |report.attempts|
            && report.uncertain == |Trace(events).value.pending|
  {
    CountsPartition(Attempts(Trace(events).value));
    SettledHasNoPending(events);
    CountAppend(Trace(events).value.attempts, Marked(Trace(events).value.pending, Pending),
                (o: Outcome) => o == Pending);
    CountMarked(Trace(events).value.pending, Pending, (o: Outcome) => o == Pending);
    LocationsAreSent(events);
  }

  /** Attempted locations, settled first. */
  function Attempted(s: State): seq<Location> {
    LocationsOf(s.attempts) + s.pending
  }

  lemma StepAttempts(s: State, event: Event)
    requires Step(s, event).Some?
    ensures Attempted(Step(s, event).value) ==
            Attempted(s) + (match event case Dispatch(locations) => locations case _ => [])
  {
    var t := Step(s, event).value;
    if !event.Dispatch? {
      assert LocationsOf(t.attempts) == Attempted(s);
    }
  }

  lemma {:induction false} LocationsAreSent(events: seq<Event>)
    requires Trace(events).Some?
    ensures Attempted(Trace(events).value) == Sent(events)
    ensures LocationsOf(Attempts(Trace(events).value)) == Sent(events)
  {
    if events == [] {
    } else {
      LocationsAreSent(events[..|events| - 1]);
      StepAttempts(Trace(events[..|events| - 1]).value, events[|events| - 1]);
    }
    assert LocationsOf(Attempts(Trace(events).value)) == Attempted(Trace(events).value);
  }

  lemma {:induction false} CountsPartition(attempts: seq<Attempt>)
    ensures var r := ReportOf(attempts);
            r.acknowledged + r.rejected + r.replayedUncertain + r.uncertain == |attempts|
  {
    if attempts == [] {
    } else {
      CountsPartition(attempts[..|attempts| - 1]);
    }
  }

  lemma {:induction false} CountAppend(a: seq<Attempt>, b: seq<Attempt>, keep: Outcome -> bool)
    ensures Count(a + b, keep) == Count(a, keep) + Count(b, keep)
  {
    if b == [] {
      assert a + b == a;
    } else {
      assert (a + b)[..|a + b| - 1] == a + b[..|b| - 1];
      CountAppend(a, b[..|b| - 1], keep);
    }
  }

  lemma {:induction false} CountMarked(locations: seq<Location>, outcome: Outcome, keep: Outcome -> bool)
    ensures Count(Marked(locations, outcome), keep) == if keep(outcome) then |locations| else 0
  {
    if locations == [] {
    } else {
      assert Marked(locations, outcome)[..|locations| - 1] == Marked(locations[..|locations| - 1], outcome);
      CountMarked(locations[..|locations| - 1], outcome, keep);
    }
  }

  lemma {:induction false} CountSettled(locations: seq<Location>, results: seq<Status>)
    requires |locations| == |results|
    ensures Count(Zip(locations, results), IsAcknowledged) == |results|
    ensures Count(Zip(locations, results), (o: Outcome) => o == Pending) == 0
    ensures Count(Zip(locations, results), (o: Outcome) => o == ReplayedUnknown) == 0
  {
    if results == [] {
    } else {
      var n := |results| - 1;
      assert Zip(locations, results)[..n] == Zip(locations[..n], results[..n]);
      CountSettled(locations[..n], results[..n]);
    }
  }

  lemma {:induction false} SettledHasNoPending(events: seq<Event>)
    requires Trace(events).Some?
    ensures Count(Trace(events).value.attempts, (o: Outcome) => o == Pending) == 0
  {
    if events == [] {
    } else {
      var before := Trace(events[..|events| - 1]).value;
      SettledHasNoPending(events[..|events| - 1]);
      var isPending := (o: Outcome) => o == Pending;
      match events[|events| - 1]
      case Dispatch(_) =>
      case Acknowledge(results) =>
        CountSettled(before.pending, results);
        CountAppend(before.attempts, Zip(before.pending, results), isPending);
      case Replay =>
        CountMarked(before.pending, ReplayedUnknown, isPending);
        CountAppend(before.attempts, Marked(before.pending, ReplayedUnknown), isPending);
      case GlobalReject =>
        CountMarked(before.pending, GlobalRejected, isPending);
        CountAppend(before.attempts, Marked(before.pending, GlobalRejected), isPending);
    }
  }

  // --- whole traces by their neighbouring events ---

  /** A dispatch sends something and does not follow a dispatch; an acknowledgement has
      one result per location of a dispatch just before it, and otherwise none. */
  predicate LegalAt(events: seq<Event>, i: nat)
    requires i < |events|
  {
    var before := if i > 0 && events[i - 1].Dispatch? then events[i - 1].locations else [];
    match events[i]
    case Dispatch(locations) => locations != [] && before == []
    case Acknowledge(results) => |results| == |before|
    case _ => true
  }

  predicate Legal(events: seq<Event>) {
    forall i :: 0 <= i < |events| ==> LegalAt(events, i)
  }

  /** What the event behind the dispatch at `i` makes of its `k`th location. */
  predicate Becomes(events: seq<Event>, i: nat, k: nat, outcome: Outcome)
    requires i < |events|
  {
    if i + 1 == |events| then outcome == Pending
    else match events[i + 1]
      case Dispatch(_) => false
      case Acknowledge(results) => k < |results| && outcome == results[k]
      case Replay => outcome == ReplayedUnknown
      case GlobalReject => outcome == GlobalRejected
  }

  lemma PrefixIsLegal(events: seq<Event>)
    requires Legal(events) && events != []
    ensures Legal(events[..|events| - 1])
  {
    var front := events[..|events| - 1];
    forall i | 0 <= i < |front| ensures LegalAt(front, i) {
      assert LegalAt(events, i);
    }
  }

  /** The accepted traces are exactly the legal ones, and what is in flight is the last
      dispatch if nothing came after it. */
  lemma {:induction false} AcceptedAreLegal(events: seq<Event>)
    ensures Trace(events).Some? <==> Legal(events)
    ensures Trace(events).Some? ==>
              Trace(events).value.pending ==
              if events != [] && events[|events| - 1].Dispatch? then events[|events| - 1].locations else []
  {
    if events == [] {
    } else {
      var front, last := events[..|events| - 1], |events| - 1;
      AcceptedAreLegal(front);
      if Legal(events) {
        PrefixIsLegal(events);
        assert LegalAt(events, last);
      }
      if Legal(front) && LegalAt(events, last) {
        forall i | 0 <= i < |events| ensures LegalAt(events, i) {
          assert i < last ==> LegalAt(front, i);
        }
      }
    }
  }

  /** Attempt `n` is that of location `k` of the dispatch at `i`. */
  predicate AttemptedAt(events: seq<Event>, i: nat, k: nat, n: nat)
    requires i < |events|
  {
    && events[i].Dispatch? && k < |events[i].locations| && Trace(events).Some?
    && var attempts := Attempts(Trace(events).value);
       && n < |attempts| && attempts[n].location == events[i].locations[k]
       && Becomes(events, i, k, attempts[n].outcome)
  }

  lemma NewestIsPending(events: seq<Event>, k: nat)
    requires Legal(events) && events != [] && events[|events| - 1].Dispatch?
    requires k < |events[|events| - 1].locations|
    ensures AttemptedAt(events, |events| - 1, k, |Sent(events[..|events| - 1])| + k)
  {
    var front := events[..|events| - 1];
    AcceptedAreLegal(events);
    AcceptedAreLegal(front);
    LocationsAreSent(front);
    assert Trace(front).value.pending == [];
  }

  lemma AnswerSettles(events: seq<Event>, k: nat)
    requires Legal(events) && |events| >= 2 && events[|events| - 2].Dispatch?
    requires k < |events[|events| - 2].locations|
    ensures AttemptedAt(events, |events| - 2, k, |Sent(events[..|events| - 2])| + k)
  {
    var last := |events| - 1;
    var front, first := events[..last], events[..last - 1];
    PrefixIsLegal(events);
    AcceptedAreLegal(events);
    NewestIsPending(front, k);
    AcceptedAreLegal(front);
    assert front[..last - 1] == first;
    assert LegalAt(events, last);
    PrefixIsLegal(front);
    AcceptedAreLegal(first);
    LocationsAreSent(first);
    assert |Trace(front).value.attempts| == |Sent(first)|;
  }

  lemma SettledStays(events: seq<Event>, i: nat, k: nat, n: nat)
    requires Legal(events) && i + 2 < |events| && AttemptedAt(events[..|events| - 1], i, k, n)
    requires n < |Trace(events[..|events| - 1]).value.attempts|
    ensures AttemptedAt(events, i, k, n)
  {
    AcceptedAreLegal(events);
  }

  /** The attempt of each location sent, at its place among all those sent, has the
      outcome that the event behind its dispatch gave it. */
  lemma {:induction false} OutcomeOfEachLocation(events: seq<Event>, i: nat, k: nat)
    requires Legal(events) && i < |events| && events[i].Dispatch? && k < |events[i].locations|
    ensures AttemptedAt(events, i, k, |Sent(events[..i])| + k)
    decreases |events|
  {
    hide AttemptedAt, Sent, LegalAt;
    var last := |events| - 1;
    if i == last {
      NewestIsPending(events, k);
    } else if i + 1 == last {
      AnswerSettles(events, k);
    } else {
      var front := events[..last];
      PrefixIsLegal(events);
      assert front[..i] == events[..i];
      OutcomeOfEachLocation(front, i, k);
      EarlierIsSettled(front, i, k);
      SettledStays(events, i, k, |Sent(events[..i])| + k);
    }
  }

  lemma {:induction false} EarlierIsSettled(events: seq<Event>, i: nat, k: nat)
    requires Legal(events) && i + 1 < |events| && events[i].Dispatch? && k < |events[i].locations|
    ensures Trace(events).Some? && |Sent(events[..i])| + k < |Trace(events).value.attempts|
  {
    var last := |events| - 1;
    AcceptedAreLegal(events);
    LocationsAreSent(events);
    SentGrows(events, i + 1);
    assert events[..i + 1][..i] == events[..i];
    if events[last].Dispatch? {
      assert LegalAt(events, last);
      SentGrows(events[..last], i + 1);
      assert events[..last][..i + 1] == events[..i + 1];
    }
  }

  lemma {:induction false} SentGrows(events: seq<Event>, n: nat)
    requires n <= |events|
    ensures |Sent(events[..n])| <= |Sent(events)|
  {
    if n == |events| {
      assert events[..n] == events;
    } else {
      assert events[..|events| - 1][..n] == events[..n];
      SentGrows(events[..|events| - 1], n);
    }
  }

  // --- the counts of a report ---

  lemma {:induction false} CountOf(attempts: seq<Attempt>, counted: set<nat>, keep: Outcome -> bool)
    requires forall i: nat :: i in counted <==> i < |attempts| && keep(attempts[i].outcome)
    ensures Count(attempts, keep) == |counted|
  {
    if attempts == [] {
      assert counted == {};
    } else {
      var last := |attempts| - 1;
      CountOf(attempts[..last], counted - {last}, keep);
      if last in counted {
        assert counted == counted - {last} + {last};
      } else {
        assert counted == counted - {last};
      }
    }
  }

  /** Each count is the number of attempts with its outcome. */
  lemma ReportCounts(attempts: seq<Attempt>)
    ensures var r := ReportOf(attempts);
            && r.attempts == attempts
            && r.acknowledged == |set i | 0 <= i < |attempts| &&
                                          (attempts[i].outcome.Success? || attempts[i].outcome.Failure?)|
            && r.rejected == |set i | 0 <= i < |attempts| && attempts[i].outcome == GlobalRejected|
            && r.replayedUncertain == |set i | 0 <= i < |attempts| && attempts[i].outcome == ReplayedUnknown|
            && r.uncertain == |set i | 0 <= i < |attempts| && attempts[i].outcome == Pending|
  {
    var unknown := set i | 0 <= i < |attempts| && attempts[i].outcome == ReplayedUnknown;
    var rejected := set i | 0 <= i < |attempts| && attempts[i].outcome == GlobalRejected;
    var pending := set i | 0 <= i < |attempts| && attempts[i].outcome == Pending;
    var acknowledged := set i | 0 <= i < |attempts| && (attempts[i].outcome.Success? || attempts[i].outcome.Failure?);
    CountOf(attempts, acknowledged, IsAcknowledged);
    CountOf(attempts, rejected, (o: Outcome) => o == GlobalRejected);
    CountOf(attempts, unknown, (o: Outcome) => o == ReplayedUnknown);
    CountOf(attempts, pending, (o: Outcome) => o == Pending);
  }
}
