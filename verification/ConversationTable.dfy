/** The primitive conversation oracle as an observer sees it: for every event, which answer
    is given and where it leads. */
module ConversationTable {
  import opened Bytes
  import opened Wire
  import opened Progress
  import opened Response
  import opened Conversation
  import opened WireOctets
  import opened ResponseOctets

  /** A retry is permitted exactly when the connection is not closed, retries remain, the
      failure is a timeout, a lost connection or a transport error, and the operation only
      reads or has opted in. A permitted mutating retry settles what was in flight as
      replayed; any other retry changes nothing. */
  lemma RetryAnswered(s: Conversation.State, mutating: bool, allow: bool, kind: ErrorKind, remaining: u32)
    ensures var (t, result) := Next(s, Retry(mutating, allow, kind, remaining));
            var permitted := s.lifecycle != Closed && remaining > 0 && (!mutating || allow)
                             && (kind.Timeout? || kind.PeerDisconnected? || kind.TransportError?);
            && result == Permission(permitted)
            && (if permitted && mutating then
                  && t.lifecycle == s.lifecycle && t.pending == [] && t.pendingReference == None
                  && |t.history| == |s.history| + |s.pending| && s.history <= t.history
                  && forall i :: 0 <= i < |s.pending| ==>
                       t.history[|s.history| + i] == Attempt(s.pending[i], ReplayedUnknown)
                else t == s)
  {
  }

  /** Lifecycle events: closing is final, losing the transport does not reopen, and only a
      lost connection can be re-established. */
  lemma MoveAnswered(s: Conversation.State)
    ensures Next(s, Moved(Disconnect)) == (s.(lifecycle := Closed), Accept)
    ensures Next(s, Moved(TransportClosed)) ==
            (if s.lifecycle == Connected then s.(lifecycle := Disconnected) else s, Accept)
    ensures Next(s, Moved(Reconnected)) ==
            if s.lifecycle == Disconnected then (s.(lifecycle := Connected), Accept)
            else (s, Reject(LifecycleTransition))
  {
  }

  /** The ranges a write request can carry. */
  predicate Writable(ranges: seq<Range>) {
    && 1 <= |ranges| <= 20 && DataLength(ranges) <= 65535
    && forall i :: 0 <= i < |ranges| ==>
         ranges[i].count != 0 && ranges[i].start + ranges[i].count <= 0x20_0000 && ranges[i].count < 8192
  }

  /** A recorded send names at most twenty locations and carries either no octets, when its
      ranges cannot be written, or a write request for them; it is taken exactly when the
      connection is up, the ranges can be written, and nothing is in flight. */
  lemma SendAnswered(s: Conversation.State, event: Conversation.Event)
    requires event.Send? && WellFormed(event)
    ensures |event.locations| <= 20 && (event.requestPdu.Some? <==> Writable(RangesOf(event.locations)))
    ensures event.requestPdu.Some? ==>
              RequestHead(event.requestPdu.value, event.reference, RangesOf(event.locations), true)
    ensures Next(s, event) ==
            if s.lifecycle != Connected then (s, Reject(NotConnected))
            else if !Writable(RangesOf(event.locations)) then (s, Reject(RequestCodec))
            else if s.pending != [] then (s, Reject(WriteProgress))
            else (s.(pending := event.locations, pendingReference := Some(event.reference)), Accept)
  {
    RequestRefused(event.reference, RangesOf(event.locations), true);
    hide RequestOf, RequestHead, DataLength;
    if event.requestPdu.Some? {
      RequestOctets(event.reference, RangesOf(event.locations), true);
    }
  }

  /** An acknowledgement is taken exactly when the connection is up and it names the
      reference in flight, if any, and as many codes as there are locations; each code then
      decides its location's outcome, 255 being success. */
  lemma AcknowledgedAnswered(s: Conversation.State, event: Conversation.Event)
    requires event.Acknowledged?
    ensures var (t, result) := Next(s, event);
            if s.lifecycle != Connected then (t, result) == (s, Reject(NotConnected))
            else if (s.pendingReference.Some? && s.pendingReference.value != event.reference)
                    || event.count != |s.pending| || |event.codes| != |s.pending|
            then (t, result) == (s, Reject(ResponseCodec))
            else
              && result == Accept && t.lifecycle == s.lifecycle && t.pending == [] && t.pendingReference == None
              && |t.history| == |s.history| + |s.pending| && s.history <= t.history
              && forall i :: 0 <= i < |s.pending| ==>
                   && t.history[|s.history| + i].location == s.pending[i]
                   && StandsFor(t.history[|s.history| + i].outcome, event.codes[i])
  {
  }

  /** A read never changes the state, and is answered with the payload exactly when the
      connection is up, nothing is in flight, the range is not empty, and the payload has
      its length. */
  lemma ReadAnswered(s: Conversation.State, event: Conversation.Event)
    requires event.Read?
    ensures Next(s, event) ==
            (s,
             if s.lifecycle != Connected then Reject(NotConnected)
             else if |s.pending| > 0 then Reject(WritePending)
             else if event.range.count == 0 then Reject(RequestCodec)
             else if |event.payload| != event.range.count then Reject(ResponseCodec)
             else Contents(event.payload))
  {
  }

  /** What is shown of a state: the history, then what is in flight as pending. */
  predicate Shows(step: Conversation.Step, s: Conversation.State) {
    && step.lifecycle == s.lifecycle && |step.attempts| == |s.history| + |s.pending| && s.history <= step.attempts
    && forall k :: 0 <= k < |s.pending| ==> step.attempts[|s.history| + k] == Attempt(s.pending[k], Pending)
  }

  /** Step `i` of a trace: the answer to event `i`, and the state the run so far has reached. */
  lemma {:induction false} TraceShows(events: seq<Conversation.Event>, i: nat)
    requires i < |events|
    ensures |StepsOf(events)| == |events|
    ensures StepsOf(events)[i].result == Next(After(events[..i]), events[i]).1
    ensures Shows(StepsOf(events)[i], After(events[..i + 1]))
    decreases |events|
  {
    hide Next;
    var front := events[..|events| - 1];
    TraceLength(front);
    if i + 1 < |events| {
      assert front[..i + 1] == events[..i + 1] && front[..i] == events[..i];
      TraceShows(front, i);
    } else {
      assert events[..i + 1] == events && events[..i] == front;
    }
  }

  lemma {:induction false} TraceLength(events: seq<Conversation.Event>)
    ensures |StepsOf(events)| == |events|
    decreases |events|
  {
    if events == [] {
    } else {
      hide Next;
      TraceLength(events[..|events| - 1]);
    }
  }
}
