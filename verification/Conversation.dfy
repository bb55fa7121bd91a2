/** The primitive conversation oracle: lifecycle, retry, send, acknowledge and read
    events over one connection, each checked against its wire bytes. */
module Conversation {
  import opened Bytes
  import opened Wire
  import opened Progress
  import opened Response

  datatype Change = Disconnect | TransportClosed | Reconnected

  datatype Event =
    | Moved(change: Change)
    | Retry(mutating: bool, allow: bool, kind: ErrorKind, remaining: u32)
    | Send(reference: u16, locations: seq<Location>, requestPdu: Option<seq<byte>>)
    | Acknowledged(reference: u16, count: byte, codes: seq<byte>, responsePdu: Option<seq<byte>>)
    | Read(reference: u16, range: Range, payload: seq<byte>, requestPdu: Option<seq<byte>>,
           responsePdu: Option<seq<byte>>)

  datatype Category =
    LifecycleTransition | NotConnected | RequestCodec | ResponseCodec | WriteProgress | WritePending

  datatype Result = Accept | Permission(permitted: bool) | Contents(payload: seq<byte>) | Reject(category: Category)

  datatype State = State(
    lifecycle: Lifecycle, history: seq<Attempt>, pending: seq<Location>, pendingReference: Option<u16>)

  const INITIAL: State := State.State(Connected, [], [], None)

  /** Recorded wire bytes agree with the independent encoder, and are absent together. */
  predicate OnWire(value: Option<seq<byte>>, encoded: Option<seq<byte>>) {
    value == encoded && (value.Some? ==> |value.value| <= 65535)
  }

  function ReadRecord(content: seq<byte>): Item { Item(255, 4, content, 0) }

  /** What an event must satisfy before the machine looks at it. */
  predicate WellFormed(event: Event) {
    match event
    case Moved(_) => true
    case Retry(_, _, _, _) => true
    case Send(reference, locations, requestPdu) =>
      |locations| <= 20 && OnWire(requestPdu, RequestOf(reference, RangesOf(locations), true))
    case Acknowledged(reference, count, codes, responsePdu) =>
      |codes| <= 65535 && OnWire(responsePdu, Some(Packet(3, reference, [5, count], codes)))
    case Read(reference, range, payload, requestPdu, responsePdu) =>
      && OnWire(requestPdu, RequestOf(reference, [range], false))
      && |payload| * 8 <= 65535
      && OnWire(responsePdu, Some(Packet(3, reference, [4, 1], ItemBytes(ReadRecord(payload)))))
  }

  predicate Permitted(s: State, event: Event)
    requires event.Retry?
  {
    && s.lifecycle != Closed && event.remaining > 0
    && event.kind in [Timeout, PeerDisconnected, TransportError]
    && (!event.mutating || event.allow)
  }

  /** One event: the state it leaves, and its result. */
  function Next(s: State, event: Event): (State, Result) {
    match event
    case Moved(change) => (
      match change
      case Disconnect => (s.(lifecycle := Closed), Accept)
      case TransportClosed => (if s.lifecycle == Closed then s else s.(lifecycle := Disconnected), Accept)
      case Reconnected =>
        if s.lifecycle == Disconnected then (s.(lifecycle := Connected), Accept)
        else (s, Reject(LifecycleTransition)))
    case Retry(mutating, _, _, _) =>
      var permitted := Permitted(s, event);
      (if permitted && mutating
       then s.(history := s.history + Marked(s.pending, ReplayedUnknown), pending := [], pendingReference := None)
       else s,
       Permission(permitted))
    case Send(reference, locations, _) =>
      if s.lifecycle != Connected then (s, Reject(NotConnected))
      else if RequestOf(reference, RangesOf(locations), true).None? then (s, Reject(RequestCodec))
      else if s.pending != [] then (s, Reject(WriteProgress))
      else (s.(pending := locations, pendingReference := Some(reference)), Accept)
    case Acknowledged(reference, count, codes, _) =>
      if s.lifecycle != Connected then (s, Reject(NotConnected))
      else if s.pendingReference !in [None, Some(reference)] || count != |s.pending| || |codes| != |s.pending|
      then (s, Reject(ResponseCodec))
      else
        (s.(history := s.history + Zip(s.pending, Statuses(codes)), pending := [], pendingReference := None), Accept)
    case Read(_, range, payload, _, _) =>
      (s,
       if s.lifecycle != Connected then Reject(NotConnected)
       else if s.pending != [] then Reject(WritePending)
       else if range.count == 0 then Reject(RequestCodec)
       else if |payload| != range.count then Reject(ResponseCodec)
       else Contents(payload))
  }

  function After(events: seq<Event>): State {
    if events == [] then INITIAL else Next(After(events[..|events| - 1]), events[|events| - 1]).0
  }

  /** The write-progress state inside a conversation. */
  function Abstract(s: State): Progress.State {
    Progress.State.State(s.history, s.pending)
  }

  function AttemptsOf(s: State): seq<Attempt> {
    Attempts(Abstract(s))
  }

  datatype Step = Step(result: Result, lifecycle: Lifecycle, attempts: seq<Attempt>)

  function StepsOf(events: seq<Event>): seq<Step> {
    if events == [] then []
    else
      var before, event := After(events[..|events| - 1]), events[|events| - 1];
      var (after, result) := Next(before, event);
      StepsOf(events[..|events| - 1]) + [Step(result, after.lifecycle, AttemptsOf(after))]
  }

  predicate AllWellFormed(events: seq<Event>) {
    forall i :: 0 <= i < |events| ==> WellFormed(events[i])
  }

  /** A reference is pending exactly while locations are; nothing recorded is pending. */
  predicate Inv(s: State) {
    && (s.pendingReference == None <==> s.pending == [])
    && |s.pending| <= 20
    && forall i :: 0 <= i < |s.history| ==> s.history[i].outcome != Pending
  }

  lemma NextInv(s: State, event: Event)
    requires Inv(s)
    ensures Inv(Next(s, event).0)
  {
  }

  lemma {:induction false} AfterInv(events: seq<Event>)
    ensures Inv(After(events))
  {
    if events == [] {
    } else {
      AfterInv(events[..|events| - 1]);
      NextInv(After(events[..|events| - 1]), events[|events| - 1]);
    }
  }

  // --- the write-progress machine underneath ---

  /** What an event does to the writes in flight. */
  function Effect(s: State, event: Event): seq<Progress.Event> {
    var result := Next(s, event).1;
    match event
    case Retry(mutating, _, _, _) => if result == Permission(true) && mutating then [Replay] else []
    case Send(_, locations, _) => if result == Accept then [Dispatch(locations)] else []
    case Acknowledged(_, _, codes, _) => if result == Accept then [Acknowledge(Statuses(codes))] else []
    case _ => []
  }

  function Projection(events: seq<Event>): seq<Progress.Event> {
    if events == [] then []
    else
      var front := events[..|events| - 1];
      Projection(front) + Effect(After(front), events[|events| - 1])
  }

  lemma EffectRefines(s: State, event: Event)
    requires Inv(s)
    ensures var t, effect := Next(s, event).0, Effect(s, event);
            if effect == [] then (t.history, t.pending) == (s.history, s.pending)
            else |effect| == 1 && Progress.Step(Abstract(s), effect[0]) == Some(Abstract(t))
  {
    hide Layout, Encodable;
  }

  /** Every run is a run of the write-progress machine with the same attempts. */
  lemma {:induction false} RunRefines(events: seq<Event>)
    ensures Progress.Trace(Projection(events)) == Some(Abstract(After(events)))
  {
    if events == [] {
    } else {
      var front, event := events[..|events| - 1], events[|events| - 1];
      RunRefines(front);
      AfterInv(front);
      EffectRefines(After(front), event);
      hide Next;
      var effect := Effect(After(front), event);
      if effect != [] {
        TraceSnoc(Projection(front), effect[0]);
        assert effect == [effect[0]];
      } else {
        assert Projection(front) + effect == Projection(front);
      }
    }
  }

  /** The locations of every accepted send, in order. */
  function AcceptedSends(events: seq<Event>): seq<Location> {
    if events == [] then []
    else
      var front, event := events[..|events| - 1], events[|events| - 1];
      AcceptedSends(front) + (if event.Send? && Next(After(front), event).1 == Accept then event.locations else [])
  }

  lemma {:induction false} SentIsAccepted(events: seq<Event>)
    ensures Sent(Projection(events)) == AcceptedSends(events)
  {
    if events == [] {
    } else {
      var front, event := events[..|events| - 1], events[|events| - 1];
      SentIsAccepted(front);
      var effect := Effect(After(front), event);
      if effect != [] {
        assert (Projection(front) + effect)[..|Projection(front)|] == Projection(front);
      } else {
        assert Projection(front) + effect == Projection(front);
      }
    }
  }

  /** Conservation: the attempts are exactly the locations of the accepted sends, in
      sending order, each under one outcome, and none is ever globally rejected. */
  lemma Conserved(events: seq<Event>)
    ensures var attempts := AttemptsOf(After(events));
            && LocationsOf(attempts) == AcceptedSends(events)
            && (var report := ReportOf(attempts);
                && report.acknowledged + report.replayedUncertain + report.uncertain == |AcceptedSends(events)|
                && report.rejected == 0 && report.uncertain == |After(events).pending|)
  {
    RunRefines(events);
    Conservation(Projection(events));
    SentIsAccepted(events);
    NoGlobalReject(events);
  }

  lemma {:induction false} NoGlobalReject(events: seq<Event>)
    ensures Count(AttemptsOf(After(events)), (o: Outcome) => o == GlobalRejected) == 0
  {
    var s := After(events);
    HistoryHasNoGlobalReject(events);
    CountNone(AttemptsOf(s), (o: Outcome) => o == GlobalRejected);
  }

  lemma {:induction false} HistoryHasNoGlobalReject(events: seq<Event>)
    ensures forall i :: 0 <= i < |After(events).history| ==> After(events).history[i].outcome != GlobalRejected
  {
    if events == [] {
    } else {
      HistoryHasNoGlobalReject(events[..|events| - 1]);
    }
  }

  lemma {:induction false} CountNone(attempts: seq<Attempt>, keep: Outcome -> bool)
    requires forall i :: 0 <= i < |attempts| ==> !keep(attempts[i].outcome)
    ensures Count(attempts, keep) == 0
  {
    if attempts == [] {
    } else {
      CountNone(attempts[..|attempts| - 1], keep);
    }
  }

  // --- history is append-only ---

  /** `later` keeps every attempt of `earlier` at its place, and every settled outcome. */
  predicate Extends(earlier: seq<Attempt>, later: seq<Attempt>) {
    && |earlier| <= |later|
    && forall i :: 0 <= i < |earlier| ==>
         later[i].location == earlier[i].location && (earlier[i].outcome != Pending ==> later[i] == earlier[i])
  }

  lemma NextExtends(s: State, event: Event)
    requires Inv(s)
    ensures s.history <= Next(s, event).0.history
    ensures Extends(AttemptsOf(s), AttemptsOf(Next(s, event).0))
  {
    hide RequestOf;
  }

  /** Over any continuation of a run, a settled attempt never changes, and an attempt in
      flight keeps its place and its location. */
  lemma {:induction false} AttemptsOnlyGrow(events: seq<Event>, n: nat)
    requires n <= |events|
    ensures After(events[..n]).history <= After(events).history
    ensures Extends(AttemptsOf(After(events[..n])), AttemptsOf(After(events)))
    decreases |events|
  {
    if n < |events| {
      var front := events[..|events| - 1];
      assert front[..n] == events[..n];
      AttemptsOnlyGrow(front, n);
      AfterInv(front);
      NextExtends(After(front), events[|events| - 1]);
    } else {
      assert events[..n] == events;
    }
  }

  /** After a disconnect nothing changes any more. */
  lemma {:induction false} ClosedIsFrozen(events: seq<Event>, n: nat)
    requires n <= |events| && After(events[..n]).lifecycle == Closed
    ensures After(events) == After(events[..n])
    decreases |events|
  {
    if n < |events| {
      var front := events[..|events| - 1];
      assert front[..n] == events[..n];
      ClosedIsFrozen(front, n);
    } else {
      assert events[..n] == events;
    }
  }

  // --- agreement with the session oracle's response decoder ---

  /** A recorded acknowledgement of a write in flight is accepted exactly when the session
      oracle's decoder accepts its bytes, and settles the same statuses. */
  lemma AcknowledgementsAgree(s: State, event: Event)
    requires Inv(s) && event.Acknowledged? && WellFormed(event) && s.lifecycle == Connected && s.pending != []
    ensures var query := Query(true, s.pendingReference.value, CountsOf(RangesOf(s.pending)));
            var decoded := ResponseOf(query, event.responsePdu.value);
            && (Next(s, event).1 == Accept <==> decoded.Accepted?)
            && (decoded.Accepted? ==> Next(s, event).0.history == s.history + Zip(s.pending, decoded.statuses))
  {
    hide Next;
    var query := Query(true, s.pendingReference.value, CountsOf(RangesOf(s.pending)));
    PacketDecodes(query, event.reference, [5, event.count], event.codes);
    AcknowledgedStep(s, event);
  }

  lemma AcknowledgedStep(s: State, event: Event)
    requires Inv(s) && event.Acknowledged? && s.lifecycle == Connected && s.pending != []
    ensures Next(s, event).1 == Accept <==>
            Some(event.reference) == s.pendingReference && event.count == |s.pending| && |event.codes| == |s.pending|
    ensures Next(s, event).1 == Accept ==>
              Next(s, event).0.history == s.history + Zip(s.pending, Statuses(event.codes))
  {
  }

  /** What the session decoder makes of a plain acknowledgement packet. */
  lemma PacketDecodes(query: Query, reference: u16, parameters: seq<byte>, data: seq<byte>)
    requires |query.counts| < 256 && |parameters| == 2 && |data| < 0x1_0000
    ensures var decoded := ResponseOf(query, Packet(3, reference, parameters, data));
            decoded ==
            if reference != query.reference || parameters != Signature(query) then Rejected(ProtocolError)
            else if query.write then
              if |data| == |query.counts| then Accepted(Statuses(data)) else Rejected(ProtocolError)
            else if ReadsOf(query.counts, data, 0, 0).Some? then Accepted([]) else Rejected(ProtocolError)
  {
    hide ReadsOf, Statuses;
    var packet := Packet(3, reference, parameters, data);
    HeaderFields(3, 0, reference, parameters, data);
    assert U16(0) == [0, 0];
    assert packet == Header(3, 0, reference, |parameters|, |data|) + parameters + data;
  }

  /** A recorded read with nothing in flight is accepted exactly when its range is not
      empty and the session oracle's decoder accepts the response bytes. */
  lemma ReadsAgree(s: State, event: Event)
    requires event.Read? && WellFormed(event) && s.lifecycle == Connected && s.pending == []
    ensures Next(s, event).1.Contents? <==>
            event.range.count != 0
            && ResponseOf(Query(false, event.reference, [event.range.count]), event.responsePdu.value).Accepted?
    ensures Next(s, event).1.Contents? ==> Next(s, event).1.payload == event.payload
  {
    var query := Query(false, event.reference, [event.range.count]);
    var record := ReadRecord(event.payload);
    var data := ItemBytes(record);
    PacketDecodes(query, event.reference, [4, 1], data);
    hide ResponseOf, Packet;
    assert Layout([record]) == data + [] == data;
    assert Signature(query) == [4, 1];
    if |event.payload| == event.range.count {
      AllCheckIntro(Answering(query.counts), 0, [record]);
      ParseItemsExact(1, Answering(query.counts), data, 0, 0, [record]);
      assert data[0..] == data;
    } else if ReadsOf(query.counts, data, 0, 0).Some? {
      OneRecord(query.counts, data, record);
    }
  }

  lemma OneRecord(counts: seq<u16>, data: seq<byte>, record: Item)
    requires |counts| == 1 && LengthField(record) < 0x1_0000 && record.pad == 0 && data == ItemBytes(record)
    requires ReadsOf(counts, data, 0, 0).Some?
    ensures ItemAnswers(record, counts[0])
  {
    ParseItemComplete(data, 0, false, record);
    ReadsStep(counts, data, 0, 0);
  }

  /** Every accepted send leaves a request the codec encodes, and its bytes determine
      the reference and the ranges in flight. */
  lemma SendBytesDetermineRanges(s: State, event: Event, s': State, event': Event)
    requires event.Send? && event'.Send? && WellFormed(event) && WellFormed(event')
    requires Next(s, event).1 == Accept && Next(s', event').1 == Accept && event.requestPdu == event'.requestPdu
    ensures Next(s, event).0.pendingReference == Next(s', event').0.pendingReference
    ensures RangesOf(Next(s, event).0.pending) == RangesOf(Next(s', event').0.pending)
  {
    hide RequestOf;
    RequestInjective(event.reference, RangesOf(event.locations), true,
                     event'.reference, RangesOf(event'.locations), true);
  }

  // --- the oracle as it runs ---

  class Oracle {
    var lifecycle: Lifecycle
    var history: seq<Attempt>
    var pending: seq<Location>
    var pendingReference: Option<u16>

    ghost function View(): State
      reads this
    {
      State.State(lifecycle, history, pending, pendingReference)
    }

    constructor ()
      ensures View() == INITIAL
    {
      lifecycle, history, pending, pendingReference := Connected, [], [], None;
    }

    method Move(change: Change) returns (result: Result)
      modifies this`lifecycle
      ensures (View(), result) == Next(old(View()), Moved(change))
    {
      result := Accept;
      match change
      case Disconnect => lifecycle := Closed;
      case TransportClosed =>
        if lifecycle != Closed {
          lifecycle := Disconnected;
        }
      case Reconnected =>
        if lifecycle == Disconnected {
          lifecycle := Connected;
        } else {
          result := Reject(LifecycleTransition);
        }
    }

    method AskRetry(mutating: bool, allow: bool, kind: ErrorKind, remaining: u32) returns (result: Result)
      modifies this
      ensures (View(), result) == Next(old(View()), Retry(mutating, allow, kind, remaining))
    {
      var permitted := lifecycle != Closed && remaining > 0
                       && kind in [Timeout, PeerDisconnected, TransportError] && (!mutating || allow);
      if permitted && mutating {
        history := history + Marked(pending, ReplayedUnknown);
        pending, pendingReference := [], None;
      }
      result := Permission(permitted);
    }

    method SendWrite(reference: u16, locations: seq<Location>, encoded: Option<seq<byte>>) returns (result: Result)
      requires encoded == RequestOf(reference, RangesOf(locations), true)
      modifies this
      ensures (View(), result) == Next(old(View()), Send(reference, locations, encoded))
    {
      hide RequestOf;
      if lifecycle != Connected {
        return Reject(NotConnected);
      }
      if encoded.None? {
        return Reject(RequestCodec);
      }
      if pending != [] {
        return Reject(WriteProgress);
      }
      pending, pendingReference := locations, Some(reference);
      result := Accept;
    }

    method Settle(reference: u16, count: byte, codes: seq<byte>, responsePdu: Option<seq<byte>>)
      returns (result: Result)
      modifies this
      ensures (View(), result) == Next(old(View()), Acknowledged(reference, count, codes, responsePdu))
    {
      if lifecycle != Connected {
        return Reject(NotConnected);
      }
      if (pendingReference.Some? && reference != pendingReference.value)
         || count != |pending| || |codes| != |pending| {
        return Reject(ResponseCodec);
      }
      history := history + Zip(pending, Statuses(codes));
      pending, pendingReference := [], None;
      result := Accept;
    }

    method ReadRange(range: Range, payload: seq<byte>) returns (result: Result)
      ensures forall reference: u16, requestPdu, responsePdu ::
                Next(View(), Read(reference, range, payload, requestPdu, responsePdu)) == (View(), result)
    {
      if lifecycle != Connected {
        return Reject(NotConnected);
      }
      if pending != [] {
        return Reject(WritePending);
      }
      if range.count == 0 {
        return Reject(RequestCodec);
      }
      if |payload| != range.count {
        return Reject(ResponseCodec);
      }
      return Contents(payload);
    }

    /** Checks an event against its wire bytes, then applies it: none when it is malformed. */
    method Handle(event: Event) returns (result: Option<Result>)
      modifies this
      ensures result.None? <==> !WellFormed(event)
      ensures result.Some? ==> (View(), result.value) == Next(old(View()), event)
    {
      hide Next, RequestOf, Packet;
      var r: Result;
      match event {
        case Moved(change) =>
          r := Move(change);
        case Retry(mutating, allow, kind, remaining) =>
          r := AskRetry(mutating, allow, kind, remaining);
        case Send(reference, locations, requestPdu) =>
          if |locations| > 20 {
            return None;
          }
          var encoded := Request(reference, RangesOf(locations), true);
          if !OnWire(requestPdu, encoded) {
            return None;
          }
          r := SendWrite(reference, locations, encoded);
        case Acknowledged(reference, count, codes, responsePdu) =>
          if |codes| > 65535 || !OnWire(responsePdu, Some(Packet(3, reference, [5, count], codes))) {
            return None;
          }
          r := Settle(reference, count, codes, responsePdu);
        case Read(reference, range, payload, requestPdu, responsePdu) =>
          var encoded := Request(reference, [range], false);
          if !OnWire(requestPdu, encoded) || |payload| * 8 > 65535 {
            return None;
          }
          if !OnWire(responsePdu, Some(Packet(3, reference, [4, 1], ItemBytes(ReadRecord(payload))))) {
            return None;
          }
          r := ReadRange(range, payload);
      }
      result := Some(r);
    }
  }

  /** The trace of a run: none exactly when some event is malformed. */
  method ConversationTrace(events: seq<Event>) returns (steps: Option<seq<Step>>)
    ensures steps == if AllWellFormed(events) then Some(StepsOf(events)) else None
  {
    hide Next, WellFormed;
    var taken: seq<Step> := [];
    var oracle := new Oracle();
    assert events[..0] == [];
    for i := 0 to |events|
      invariant fresh(oracle) && oracle.View() == After(events[..i])
      invariant taken == StepsOf(events[..i]) && AllWellFormed(events[..i])
    {
      assert events[..i + 1][..i] == events[..i];
      var result := oracle.Handle(events[i]);
      if result.None? {
        return None;
      }
      var attempts := oracle.history + Marked(oracle.pending, Pending);
      taken := taken + [Step(result.value, oracle.lifecycle, attempts)];
    }
    assert events[..|events|] == events;
    return Some(taken);
  }
}
