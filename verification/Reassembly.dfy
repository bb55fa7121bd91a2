/** TCP to TPKT to COTP reassembly of captured segments. TPKT framing is section 6 of
    RFC 1006; the data TPDU is section 13.7 of RFC 905. */
module Reassembly {
  import opened Bytes

  /** One direction of one connection. */
  datatype Key = Key(source: seq<byte>, sport: u16, destination: seq<byte>, dport: u16)

  datatype Segment = Segment(number: nat, key: Key, payload: seq<byte>, syn: bool, position: nat)

  datatype Message = Message(frame: nat, fromClient: bool, pdu: seq<byte>)

  // --- one-shot parsing ---

  /** What is left of a stream once every complete frame is taken off it. */
  datatype Drained = Drained(rest: seq<byte>, partial: seq<byte>, pdus: seq<seq<byte>>)

  /** The effect of one TPKT frame: none when the source indexes past its end. */
  function TakeFrame(tpkt: seq<byte>, partial: seq<byte>): (r: Option<(seq<byte>, seq<seq<byte>>)>)
    ensures r.Some? ==> |tpkt| >= 6
  {
    var cotp := if |tpkt| < 4 then [] else tpkt[4..];
    if |cotp| < 2 then None
    else if cotp[1] < 0xf0 then Some((partial, []))
    else if |cotp| < 3 then None
    else
      var data := partial + (if 1 + cotp[0] <= |cotp| then cotp[1 + cotp[0]..] else []);
      if cotp[2] >= 0x80 then Some(([], [data])) else Some((data, []))
  }

  /** The length field of the frame at the head of the buffer, once it can be read and
      the frame is complete. */
  function FrameLength(buffer: seq<byte>): Option<nat> {
    if |buffer| < 4 || |buffer| < Be16(buffer, 2) then None else Some(Be16(buffer, 2))
  }

  function Drain(buffer: seq<byte>, partial: seq<byte>): Option<Drained>
    decreases |buffer|
  {
    match FrameLength(buffer)
    case None => Some(Drained(buffer, partial, []))
    case Some(length) =>
      match TakeFrame(buffer[..length], partial)
      case None => None
      case Some((partial', pdus)) => After(pdus, Drain(buffer[length..], partial'))
  }

  function After(pdus: seq<seq<byte>>, later: Option<Drained>): Option<Drained> {
    match later
    case None => None
    case Some(d) => Some(d.(pdus := pdus + d.pdus))
  }

  lemma AfterAfter(a: seq<seq<byte>>, b: seq<seq<byte>>, later: Option<Drained>)
    ensures After(a, After(b, later)) == After(a + b, later)
    ensures After([], later) == later
  {
    if later.Some? {
      assert a + (b + later.value.pdus) == a + b + later.value.pdus;
      assert [] + later.value.pdus == later.value.pdus;
    }
  }

  /** Parsing is incremental: what one prefix leaves over is all that later octets need. */
  lemma {:induction false} DrainAppend(a: seq<byte>, b: seq<byte>, partial: seq<byte>)
    ensures Drain(a + b, partial) ==
            match Drain(a, partial)
            case None => None
            case Some(d) => After(d.pdus, Drain(d.rest + b, d.partial))
    decreases |a|
  {
    match FrameLength(a)
    case None =>
      AfterAfter([], [], Drain(a + b, partial));
    case Some(length) =>
      assert (a + b)[..length] == a[..length] && (a + b)[length..] == a[length..] + b;
      assert Be16(a + b, 2) == Be16(a, 2);
      if TakeFrame(a[..length], partial).Some? {
        var (partial', pdus) := TakeFrame(a[..length], partial).value;
        DrainAppend(a[length..], b, partial');
        if Drain(a[length..], partial').Some? {
          var d := Drain(a[length..], partial').value;
          AfterAfter(pdus, d.pdus, Drain(d.rest + b, d.partial));
        }
      }
  }

  // --- what each direction has received ---

  /** The next expected position, if known, and the octets accepted so far. */
  datatype Track = Track(expected: Option<nat>, stream: seq<byte>)

  /** The octets of a segment that are new. */
  function NewOctets(expected: Option<nat>, segment: Segment): seq<byte> {
    if expected.None? || segment.position >= expected.value then segment.payload
    else if segment.position + |segment.payload| > expected.value
    then segment.payload[expected.value - segment.position..]
    else []
  }

  function Accept(t: Track, segment: Segment): Track {
    if segment.syn then t.(expected := Some(segment.position + 1))
    else
      var added := NewOctets(t.expected, segment);
      if added == [] then t
      else
        var start := if t.expected.Some? && segment.position < t.expected.value then t.expected.value
                     else segment.position;
        Track(Some(start + |added|), t.stream + added)
  }

  function TrackOf(segments: seq<Segment>, key: Key): Track {
    if segments == [] then Track(None, [])
    else
      var last := segments[|segments| - 1];
      var before := TrackOf(segments[..|segments| - 1], key);
      if last.key == key then Accept(before, last) else before
  }

  lemma TrackSnoc(segments: seq<Segment>, segment: Segment, key: Key)
    ensures TrackOf(segments + [segment], key) ==
            if segment.key == key then Accept(TrackOf(segments, key), segment) else TrackOf(segments, key)
  {
    assert (segments + [segment])[..|segments|] == segments;
  }

  // --- what the reassembler emits ---

  function PdusOf(stream: seq<byte>): seq<seq<byte>> {
    match Drain(stream, []) case None => [] case Some(d) => d.pdus
  }

  datatype Emission = Emission(key: Key, message: Message)

  function Tag(number: nat, key: Key, pdus: seq<seq<byte>>): (s: seq<Emission>)
    ensures |s| == |pdus|
  {
    seq(|pdus|, i requires 0 <= i < |pdus| => Emission(key, Message(number, key.dport == 102, pdus[i])))
  }

  function MessagesOf(emissions: seq<Emission>): (s: seq<Message>)
    ensures |s| == |emissions|
  {
    seq(|emissions|, i requires 0 <= i < |emissions| => emissions[i].message)
  }

  predicate Parses(segments: seq<Segment>, key: Key) {
    Drain(TrackOf(segments, key).stream, []).Some?
  }

  /** Some direction has received a frame the source cannot index. */
  ghost predicate Broken(segments: seq<Segment>) {
    exists key: Key :: !Parses(segments, key)
  }

  /** The PDUs completed by the last segment, tagged with its frame number and direction. */
  function Completed(segments: seq<Segment>): seq<Emission>
    requires |segments| > 0
  {
    var last := segments[|segments| - 1];
    var before := PdusOf(TrackOf(segments[..|segments| - 1], last.key).stream);
    var after := PdusOf(TrackOf(segments, last.key).stream);
    if |before| <= |after| then Tag(last.number, last.key, after[|before|..]) else []
  }

  /** Every message in capture order. */
  function Emitted(segments: seq<Segment>): seq<Emission> {
    if segments == [] then [] else Emitted(segments[..|segments| - 1]) + Completed(segments)
  }

  /** The PDUs of one direction, in order. */
  function PdusFor(emissions: seq<Emission>, key: Key): seq<seq<byte>> {
    if emissions == [] then []
    else
      var last := emissions[|emissions| - 1];
      PdusFor(emissions[..|emissions| - 1], key) + (if last.key == key then [last.message.pdu] else [])
  }

  lemma {:induction false} PdusForAppend(a: seq<Emission>, b: seq<Emission>, key: Key)
    ensures PdusFor(a + b, key) == PdusFor(a, key) + PdusFor(b, key)
  {
    if b == [] {
      assert a + b == a;
    } else {
      assert (a + b)[..|a + b| - 1] == a + b[..|b| - 1];
      PdusForAppend(a, b[..|b| - 1], key);
    }
  }

  lemma {:induction false} PdusForTag(number: nat, origin: Key, pdus: seq<seq<byte>>, key: Key)
    ensures PdusFor(Tag(number, origin, pdus), key) == if origin == key then pdus else []
  {
    if pdus == [] {
    } else {
      var front := pdus[..|pdus| - 1];
      assert Tag(number, origin, pdus)[..|pdus| - 1] == Tag(number, origin, front);
      PdusForTag(number, origin, front, key);
      assert pdus == front + [pdus[|pdus| - 1]];
    }
  }

  /** More octets never retract a PDU. */
  lemma PdusGrow(a: seq<byte>, b: seq<byte>)
    requires Drain(a + b, []).Some?
    ensures Drain(a, []).Some? && PdusOf(a) <= PdusOf(a + b)
  {
    DrainAppend(a, b, []);
  }

  lemma TrackGrows(segments: seq<Segment>, key: Key)
    requires |segments| > 0
    ensures TrackOf(segments[..|segments| - 1], key).stream <= TrackOf(segments, key).stream
  {
  }

  /** One segment completes PDUs of its own direction only. */
  lemma CompletedFor(segments: seq<Segment>, key: Key)
    requires |segments| > 0 && Parses(segments, key)
    ensures PdusOf(TrackOf(segments, key).stream) ==
            PdusOf(TrackOf(segments[..|segments| - 1], key).stream) + PdusFor(Completed(segments), key)
  {
    hide PdusOf, Tag, PdusFor;
    var last, front := segments[|segments| - 1], segments[..|segments| - 1];
    StreamSplit(segments, key);
    var before, after := PdusOf(TrackOf(front, last.key).stream), PdusOf(TrackOf(segments, last.key).stream);
    PdusForTag(last.number, last.key, if |before| <= |after| then after[|before|..] else [], key);
  }

  /** Whatever the interleaving, the messages of one direction are a one-shot parse of
      the octets that direction received. */
  lemma {:induction false} DirectionsAreIndependent(segments: seq<Segment>, key: Key)
    requires Parses(segments, key)
    ensures PdusFor(Emitted(segments), key) == PdusOf(TrackOf(segments, key).stream)
  {
    if segments == [] {
      assert Drain([], []) == Some(Drained([], [], []));
    } else {
      hide PdusOf, Completed, TrackOf, Parses;
      StreamSplit(segments, key);
      DirectionsAreIndependent(segments[..|segments| - 1], key);
      CompletedFor(segments, key);
      PdusForAppend(Emitted(segments[..|segments| - 1]), Completed(segments), key);
    }
  }

  lemma StreamSplit(segments: seq<Segment>, key: Key)
    requires |segments| > 0 && Parses(segments, key)
    ensures var front := segments[..|segments| - 1];
            && Parses(front, key)
            && PdusOf(TrackOf(front, key).stream) <= PdusOf(TrackOf(segments, key).stream)
  {
    hide TrackOf, PdusOf, Drain;
    var a, b := TrackOf(segments[..|segments| - 1], key).stream, TrackOf(segments, key).stream;
    TrackGrows(segments, key);
    assert b == a + b[|a|..];
    PdusGrow(a, b[|a|..]);
  }

  /** A direction that cannot be parsed never recovers. */
  lemma {:induction false} BrokenStays(segments: seq<Segment>, n: nat, key: Key)
    requires n <= |segments| && !Parses(segments[..n], key)
    ensures !Parses(segments, key)
    decreases |segments|
  {
    if n < |segments| {
      assert segments[..|segments| - 1][..n] == segments[..n];
      BrokenStays(segments[..|segments| - 1], n, key);
      if Parses(segments, key) {
        StreamSplit(segments, key);
      }
    } else {
      assert segments[..n] == segments;
    }
  }

  function Lookup(m: map<Key, seq<byte>>, key: Key): seq<byte> {
    if key in m then m[key] else []
  }

  ghost predicate OthersSame(before: map<Key, seq<byte>>, after: map<Key, seq<byte>>, key: Key) {
    forall other: Key :: other != key ==> Lookup(after, other) == Lookup(before, other)
  }

  /** The state of one direction is what the one-shot parse of its octets leaves over. */
  predicate Parsed(fed: seq<Segment>, buffers: map<Key, seq<byte>>, partial: map<Key, seq<byte>>, key: Key) {
    var whole := Drain(TrackOf(fed, key).stream, []);
    whole.Some? && whole.value.rest == Lookup(buffers, key) && whole.value.partial == Lookup(partial, key)
  }

  function ExpectedOf(expected: map<Key, nat>, key: Key): Option<nat> {
    if key in expected then Some(expected[key]) else None
  }

  ghost predicate Consistent(
    fed: seq<Segment>, buffers: map<Key, seq<byte>>, expected: map<Key, nat>, partial: map<Key, seq<byte>>,
    out: seq<Message>)
  {
    && out == MessagesOf(Emitted(fed))
    && (forall key: Key :: ExpectedOf(expected, key) == TrackOf(fed, key).expected)
    && (forall key: Key :: Parsed(fed, buffers, partial, key))
  }

  /** Draining one direction after appending a segment's new octets keeps the whole
      reassembler consistent. */
  lemma Advance(
    fed: seq<Segment>, segment: Segment, buffers: map<Key, seq<byte>>, expected: map<Key, nat>,
    partial: map<Key, seq<byte>>, out: seq<Message>, buffers': map<Key, seq<byte>>, expected': map<Key, nat>,
    partial': map<Key, seq<byte>>, pdus: seq<seq<byte>>)
    requires Consistent(fed, buffers, expected, partial, out)
    requires OthersSame(buffers, buffers', segment.key) && OthersSame(partial, partial', segment.key)
    requires ExpectedOf(expected', segment.key) == Accept(TrackOf(fed, segment.key), segment).expected
    requires forall other: Key :: other != segment.key ==> ExpectedOf(expected', other) == ExpectedOf(expected, other)
    requires Drain(Lookup(buffers, segment.key) + Added(fed, segment), Lookup(partial, segment.key)) ==
             Some(Drained(Lookup(buffers', segment.key), Lookup(partial', segment.key), pdus))
    ensures Consistent(fed + [segment], buffers', expected', partial',
                       out + MessagesOf(Tag(segment.number, segment.key, pdus)))
  {
    hide Drain, TrackOf, Emitted, Tag, MessagesOf, Added, NewOctets;
    var key := segment.key;
    assert Parsed(fed, buffers, partial, key);
    FedSegment(fed, segment);
    TracksStep(fed, segment);
    forall other: Key ensures Parsed(fed + [segment], buffers', partial', other) {
      assert Parsed(fed, buffers, partial, other);
    }
    forall other: Key ensures ExpectedOf(expected', other) == TrackOf(fed + [segment], other).expected {
      assert ExpectedOf(expected, other) == TrackOf(fed, other).expected;
    }
  }

  /** What the buffers hold when a segment brings nothing new. */
  lemma Quiet(fed: seq<Segment>, buffers: map<Key, seq<byte>>, partial: map<Key, seq<byte>>, key: Key)
    requires Parsed(fed, buffers, partial, key)
    ensures Drain(Lookup(buffers, key) + [], Lookup(partial, key)) ==
            Some(Drained(Lookup(buffers, key), Lookup(partial, key), []))
  {
    RestIsStuck(TrackOf(fed, key).stream, []);
    assert Lookup(buffers, key) + [] == Lookup(buffers, key);
  }

  class Reassembler {
    var buffers: map<Key, seq<byte>>
    var expected: map<Key, nat>
    var partial: map<Key, seq<byte>>
    var out: seq<Message>
    ghost var fed: seq<Segment>

    ghost predicate Valid()
      reads this
    {
      Consistent(fed, buffers, expected, partial, out)
    }

    constructor ()
      ensures Valid() && fed == []
    {
      buffers, expected, partial := map[], map[], map[];
      out, fed := [], [];
    }

    /** Handles one frame: control TPDUs are skipped, data TPDUs joined until the last. */
    method TakeTpkt(number: nat, key: Key, tpkt: seq<byte>) returns (ok: bool)
      modifies this`partial, this`out
      ensures OthersSame(old(partial), partial, key)
      ensures ok <==> TakeFrame(tpkt, old(Lookup(partial, key))).Some?
      ensures ok ==>
                var (later, pdus) := TakeFrame(tpkt, old(Lookup(partial, key))).value;
                Lookup(partial, key) == later && out == old(out) + MessagesOf(Tag(number, key, pdus))
    {
      if |tpkt| < 6 {
        return false;
      }
      var cotp := tpkt[4..];
      if cotp[1] < 0xf0 {
        return true;
      }
      if |cotp| < 3 {
        return false;
      }
      var data := Lookup(partial, key) + (if 1 + cotp[0] <= |cotp| then cotp[1 + cotp[0]..] else []);
      if cotp[2] >= 0x80 {
        out := out + [Message(number, key.dport == 102, data)];
        partial := partial - {key};
      } else {
        partial := partial[key := data];
      }
      ok := true;
    }

    /** Takes every complete frame off one direction's buffer. */
    method DrainBuffer(number: nat, key: Key) returns (ok: bool)
      requires key in buffers
      modifies this`buffers, this`partial, this`out
      ensures OthersSame(old(buffers), buffers, key) && OthersSame(old(partial), partial, key)
      ensures ok <==> Drain(old(Lookup(buffers, key)), old(Lookup(partial, key))).Some?
      ensures ok ==>
                var d := Drain(old(Lookup(buffers, key)), old(Lookup(partial, key))).value;
                && Lookup(buffers, key) == d.rest && Lookup(partial, key) == d.partial
                && out == old(out) + MessagesOf(Tag(number, key, d.pdus))
    {
      hide TakeFrame, After, MessagesOf, Tag;
      ghost var whole := Drain(buffers[key], Lookup(partial, key));
      ghost var done: seq<seq<byte>> := [];
      AfterAfter([], [], whole);
      TaggedAppend(number, key, [], []);
      while |buffers[key]| >= 4
        invariant key in buffers
        invariant OthersSame(old(buffers), buffers, key) && OthersSame(old(partial), partial, key)
        invariant whole == After(done, Drain(buffers[key], Lookup(partial, key)))
        invariant out == old(out) + MessagesOf(Tag(number, key, done))
        decreases |buffers[key]|
      {
        var buffer := buffers[key];
        var length := Be16(buffer, 2) as nat;
        if |buffer| < length {
          break;
        }
        var tpkt := buffer[..length];
        buffers := buffers[key := buffer[length..]];
        ghost var taken := TakeFrame(tpkt, Lookup(partial, key));
        DrainNext(buffer, Lookup(partial, key), done);
        ok := TakeTpkt(number, key, tpkt);
        if !ok {
          return;
        }
        TaggedAppend(number, key, done, taken.value.1);
        done := done + taken.value.1;
      }
      DrainEnd(buffers[key], Lookup(partial, key), done);
      ok := true;
    }

    /** One captured segment: a retransmission is trimmed to its new octets, which join
        the direction's buffer. Fails exactly when a frame cannot be indexed. */
    method Feed(segment: Segment) returns (ok: bool)
      requires Valid()
      modifies this
      ensures ok <==> Parses(old(fed) + [segment], segment.key)
      ensures ok ==> Valid() && fed == old(fed) + [segment]
    {
      hide Drain, TrackOf, Emitted, Tag, MessagesOf, Consistent;
      var key, payload, start := segment.key, segment.payload, segment.position;
      ghost var added := Added(fed, segment);
      ghost var before := buffers;
      FeedStart(fed, segment, buffers, expected, partial, out);
      fed := fed + [segment];
      if segment.syn {
        expected := expected[key := start + 1];
        Advance(old(fed), segment, before, old(expected), partial, out, buffers, expected, partial, []);
        return true;
      }
      if payload == [] {
        Advance(old(fed), segment, before, old(expected), partial, out, buffers, expected, partial, []);
        return true;
      }
      if key in expected && start < expected[key] {
        var next := expected[key];
        payload := if start + |payload| > next then payload[next - start..] else [];
        start := next;
      }
      if payload == [] {
        Advance(old(fed), segment, before, old(expected), partial, out, buffers, expected, partial, []);
        return true;
      }
      assert payload == added;
      expected := expected[key := start + |payload|];
      buffers := buffers[key := Lookup(buffers, key) + payload];
      ok := DrainBuffer(segment.number, key);
      if ok {
        ghost var d := Drain(Lookup(before, key) + added, old(Lookup(partial, key))).value;
        Advance(old(fed), segment, before, old(expected), old(partial), old(out), buffers, expected, partial, d.pdus);
      }
    }
  }

  lemma FeedStart(
    fed: seq<Segment>, segment: Segment, buffers: map<Key, seq<byte>>, expected: map<Key, nat>,
    partial: map<Key, seq<byte>>, out: seq<Message>)
    requires Consistent(fed, buffers, expected, partial, out)
    ensures ExpectedOf(expected, segment.key) == TrackOf(fed, segment.key).expected
    ensures Parses(fed + [segment], segment.key) <==>
            Drain(Lookup(buffers, segment.key) + Added(fed, segment), Lookup(partial, segment.key)).Some?
    ensures Added(fed, segment) == [] ==>
              Drain(Lookup(buffers, segment.key) + Added(fed, segment), Lookup(partial, segment.key)) ==
              Some(Drained(Lookup(buffers, segment.key), Lookup(partial, segment.key), []))
              && out + MessagesOf(Tag(segment.number, segment.key, [])) == out
  {
    hide Drain, TrackOf, Emitted, Tag, MessagesOf, Added, NewOctets;
    assert Parsed(fed, buffers, partial, segment.key);
    FedSegment(fed, segment);
    Quiet(fed, buffers, partial, segment.key);
    TaggedAppend(segment.number, segment.key, [], []);
  }

  /** What a segment adds to its direction's stream. */
  function Added(fed: seq<Segment>, segment: Segment): seq<byte> {
    if segment.syn then [] else NewOctets(TrackOf(fed, segment.key).expected, segment)
  }

  lemma TracksStep(fed: seq<Segment>, segment: Segment)
    ensures forall key: Key :: TrackOf(fed + [segment], key) ==
              (if segment.key == key then Accept(TrackOf(fed, key), segment) else TrackOf(fed, key))
    ensures TrackOf(fed + [segment], segment.key).stream == TrackOf(fed, segment.key).stream + Added(fed, segment)
  {
    forall key: Key
      ensures TrackOf(fed + [segment], key) ==
              (if segment.key == key then Accept(TrackOf(fed, key), segment) else TrackOf(fed, key))
    {
      TrackSnoc(fed, segment, key);
    }
  }

  /** The rest of a parsed stream holds no complete frame. */
  lemma {:induction false} RestIsStuck(buffer: seq<byte>, partial: seq<byte>)
    requires Drain(buffer, partial).Some?
    ensures FrameLength(Drain(buffer, partial).value.rest).None?
    decreases |buffer|
  {
    var length := FrameLength(buffer);
    if length.Some? {
      RestIsStuck(buffer[length.value..], TakeFrame(buffer[..length.value], partial).value.0);
    }
  }

  /** Draining what the buffer held, extended by the new octets, continues the one-shot
      parse of the whole stream and yields the newly completed messages. */
  lemma FedSegment(fed: seq<Segment>, segment: Segment)
    requires Parses(fed, segment.key)
    ensures var d := Drain(TrackOf(fed, segment.key).stream, []).value;
            var later := Drain(d.rest + Added(fed, segment), d.partial);
            && Drain(TrackOf(fed + [segment], segment.key).stream, []) == After(d.pdus, later)
            && (later.Some? ==>
                  MessagesOf(Emitted(fed + [segment])) ==
                  MessagesOf(Emitted(fed)) + MessagesOf(Tag(segment.number, segment.key, later.value.pdus)))
  {
    hide Drain, TrackOf, Emitted, Tag, Added;
    var stream, added := TrackOf(fed, segment.key).stream, Added(fed, segment);
    TracksStep(fed, segment);
    DrainAppend(stream, added, []);
    var d := Drain(stream, []).value;
    var later := Drain(d.rest + added, d.partial);
    if later.Some? {
      assert (d.pdus + later.value.pdus)[|d.pdus|..] == later.value.pdus;
      EmittedSnoc(fed, segment, d.pdus, later.value.pdus);
    }
  }

  lemma EmittedSnoc(fed: seq<Segment>, segment: Segment, pdus: seq<seq<byte>>, more: seq<seq<byte>>)
    requires PdusOf(TrackOf(fed, segment.key).stream) == pdus
    requires PdusOf(TrackOf(fed + [segment], segment.key).stream) == pdus + more
    ensures Emitted(fed + [segment]) == Emitted(fed) + Tag(segment.number, segment.key, more)
    ensures MessagesOf(Emitted(fed + [segment])) ==
            MessagesOf(Emitted(fed)) + MessagesOf(Tag(segment.number, segment.key, more))
  {
    hide PdusOf, TrackOf, Tag;
    assert (fed + [segment])[..|fed|] == fed;
    assert (pdus + more)[|pdus|..] == more;
  }

  lemma TaggedAppend(number: nat, key: Key, a: seq<seq<byte>>, b: seq<seq<byte>>)
    ensures MessagesOf(Tag(number, key, a + b)) == MessagesOf(Tag(number, key, a)) + MessagesOf(Tag(number, key, b))
    ensures a == [] ==> MessagesOf(Tag(number, key, a)) == []
  {
  }

  lemma DrainNext(buffer: seq<byte>, partial: seq<byte>, done: seq<seq<byte>>)
    requires FrameLength(buffer).Some?
    ensures var length := FrameLength(buffer).value;
            After(done, Drain(buffer, partial)) ==
            match TakeFrame(buffer[..length], partial)
            case None => None
            case Some((later, pdus)) => After(done + pdus, Drain(buffer[length..], later))
  {
    var length := FrameLength(buffer).value;
    if TakeFrame(buffer[..length], partial).Some? {
      var (later, pdus) := TakeFrame(buffer[..length], partial).value;
      AfterAfter(done, pdus, Drain(buffer[length..], later));
    }
  }

  lemma DrainEnd(buffer: seq<byte>, partial: seq<byte>, done: seq<seq<byte>>)
    requires FrameLength(buffer).None?
    ensures After(done, Drain(buffer, partial)) == Some(Drained(buffer, partial, done))
  {
    assert done + [] == done;
  }

  /** The whole capture, segment by segment: fails exactly when some direction holds a
      frame that cannot be indexed, and otherwise emits every message in capture order. */
  method Messages(segments: seq<Segment>) returns (r: Option<seq<Message>>)
    ensures r.None? <==> Broken(segments)
    ensures r.Some? ==> r.value == MessagesOf(Emitted(segments))
  {
    hide Parses, MessagesOf, Emitted;
    var state := new Reassembler();
    for n := 0 to |segments|
      invariant fresh(state) && state.Valid() && state.fed == segments[..n]
    {
      assert segments[..n + 1] == segments[..n] + [segments[n]];
      var ok := state.Feed(segments[n]);
      if !ok {
        BrokenStays(segments, n + 1, segments[n].key);
        return None;
      }
    }
    assert segments[..|segments|] == segments;
    ConsistentParses(state.fed, state.buffers, state.expected, state.partial, state.out);
    r := Some(state.out);
  }

  lemma ConsistentParses(
    fed: seq<Segment>, buffers: map<Key, seq<byte>>, expected: map<Key, nat>, partial: map<Key, seq<byte>>,
    out: seq<Message>)
    requires Consistent(fed, buffers, expected, partial, out)
    ensures !Broken(fed)
  {
    forall key: Key ensures Parses(fed, key) {
      assert Parsed(fed, buffers, partial, key);
    }
  }

  // --- the network: any segmentation, any retransmission ---

  function Later(high: nat, segment: Segment, base: nat): nat {
    if !segment.syn && segment.payload != [] && segment.position + |segment.payload| - base > high
    then segment.position + |segment.payload| - base else high
  }

  /** One past the furthest octet of the stream delivered so far, counted from `base`. */
  function High(segments: seq<Segment>, key: Key, base: nat): nat {
    if segments == [] then 0
    else
      var last, before := segments[|segments| - 1], High(segments[..|segments| - 1], key, base);
      if last.key == key then Later(before, last, base) else before
  }

  /** The next segment of a direction carries octets of `sent` at their own positions,
      and leaves no gap behind; a SYN comes before any data. */
  predicate Delivered(segments: seq<Segment>, segment: Segment, base: nat, sent: seq<byte>) {
    var at, high, size := segment.position, High(segments, segment.key, base), |segment.payload|;
    if segment.syn then at + 1 == base && high == 0
    else
      size == 0 || (base <= at <= base + high && at - base + size <= |sent|
                    && segment.payload == sent[at - base..at - base + size])
  }

  /** Octets of `sent` arrive in any segmentation, with duplicated and overlapping
      retransmissions, interleaved with other directions. */
  predicate Delivers(segments: seq<Segment>, key: Key, base: nat, sent: seq<byte>) {
    if segments == [] then true
    else
      var last, front := segments[|segments| - 1], segments[..|segments| - 1];
      Delivers(front, key, base, sent) && (last.key == key ==> Delivered(front, last, base, sent))
  }

  /** A direction's track after `high` octets of `sent`. */
  predicate InStep(track: Track, high: nat, base: nat, sent: seq<byte>) {
    && high <= |sent| && track.stream == sent[..high]
    && (track.expected == Some(base + high) || (high == 0 && track.expected == None))
  }

  lemma {:induction false} StreamIsSentPrefix(segments: seq<Segment>, key: Key, base: nat, sent: seq<byte>)
    requires Delivers(segments, key, base, sent)
    ensures InStep(TrackOf(segments, key), High(segments, key, base), base, sent)
  {
    if segments != [] {
      hide InStep, Accept, Delivered;
      var last, front := segments[|segments| - 1], segments[..|segments| - 1];
      StreamIsSentPrefix(front, key, base, sent);
      if last.key == key {
        AcceptExtends(TrackOf(front, key), front, last, base, sent);
      }
    } else {
      assert sent[..0] == [];
    }
  }

  lemma AcceptExtends(track: Track, front: seq<Segment>, last: Segment, base: nat, sent: seq<byte>)
    requires Delivered(front, last, base, sent) && InStep(track, High(front, last.key, base), base, sent)
    ensures InStep(Accept(track, last), Later(High(front, last.key, base), last, base), base, sent)
  {
    hide High, NewOctets;
    var high, end := High(front, last.key, base), last.position + |last.payload| - base;
    if !last.syn {
      if last.payload != [] && end > high {
        hide InStep, Accept;
        NewIsSlice(track, high, last, base, sent);
        AcceptSlice(track, high, last, base, sent);
      } else {
        NothingNew(track, high, last, base, sent);
      }
    }
  }

  lemma NothingNew(track: Track, high: nat, last: Segment, base: nat, sent: seq<byte>)
    requires InStep(track, high, base, sent)
    requires last.payload == [] || (base <= last.position && last.position + |last.payload| <= base + high)
    ensures NewOctets(track.expected, last) == []
  {
  }

  lemma AcceptSlice(track: Track, high: nat, last: Segment, base: nat, sent: seq<byte>)
    requires InStep(track, high, base, sent) && !last.syn
    requires base <= last.position <= base + high < last.position + |last.payload| <= base + |sent|
    requires NewOctets(track.expected, last) == sent[high..last.position + |last.payload| - base]
    ensures InStep(Accept(track, last), last.position + |last.payload| - base, base, sent)
  {
    hide NewOctets;
    var end := last.position + |last.payload| - base;
    assert sent[..high] + sent[high..end] == sent[..end];
  }

  lemma NewIsSlice(track: Track, high: nat, last: Segment, base: nat, sent: seq<byte>)
    requires InStep(track, high, base, sent)
    requires base <= last.position <= base + high < last.position + |last.payload| <= base + |sent|
    requires last.payload == sent[last.position - base..last.position - base + |last.payload|]
    ensures NewOctets(track.expected, last) == sent[high..last.position + |last.payload| - base]
  {
  }

  /** Segmentation and retransmission never matter: the messages of a direction are a
      one-shot parse of the prefix it has delivered. */
  lemma SegmentationIsIrrelevant(segments: seq<Segment>, key: Key, base: nat, sent: seq<byte>)
    requires Delivers(segments, key, base, sent)
    requires Drain(sent[..StreamHigh(segments, key, base, sent)], []).Some?
    ensures Parses(segments, key)
    ensures PdusFor(Emitted(segments), key) == PdusOf(sent[..StreamHigh(segments, key, base, sent)])
  {
    hide Drain, TrackOf, Emitted;
    StreamIsSentPrefix(segments, key, base, sent);
    DirectionsAreIndependent(segments, key);
  }

  function StreamHigh(segments: seq<Segment>, key: Key, base: nat, sent: seq<byte>): (h: nat)
    requires Delivers(segments, key, base, sent)
    ensures h <= |sent|
  {
    StreamIsSentPrefix(segments, key, base, sent);
    High(segments, key, base)
  }

  // --- what senders put on the wire ---

  /** A class 0 data TPDU, or a connection TPDU, which carries no S7 octets. */
  datatype Tpdu = Control(body: seq<byte>) | Data(chunk: seq<byte>, last: bool)

  predicate Framed(tpdu: Tpdu) {
    match tpdu
    case Control(body) => 2 <= |body| < 0xfffc && body[1] < 0xf0
    case Data(chunk, _) => |chunk| < 0xfff9
  }

  predicate AllFramed(tpdus: seq<Tpdu>) {
    forall i :: 0 <= i < |tpdus| ==> Framed(tpdus[i])
  }

  function FrameOf(tpdu: Tpdu): (s: seq<byte>)
    requires Framed(tpdu)
    ensures |s| >= 6
  {
    match tpdu
    case Control(body) => [3, 0] + U16(|body| + 4) + body
    case Data(chunk, last) => [3, 0] + U16(|chunk| + 7) + [2, 0xf0, if last then 0x80 else 0] + chunk
  }

  function StreamOf(tpdus: seq<Tpdu>): seq<byte>
    requires AllFramed(tpdus)
  {
    if tpdus == [] then [] else FrameOf(tpdus[0]) + StreamOf(tpdus[1..])
  }

  /** The PDUs whose final data TPDU lies within the first `h` octets of the stream:
      the chunks since the previous final one, joined. */
  function Arrived(tpdus: seq<Tpdu>, partial: seq<byte>, h: nat): seq<seq<byte>>
    requires AllFramed(tpdus)
  {
    if tpdus == [] || h < |FrameOf(tpdus[0])| then []
    else
      var later := h - |FrameOf(tpdus[0])|;
      match tpdus[0]
      case Control(_) => Arrived(tpdus[1..], partial, later)
      case Data(chunk, last) =>
        if last then [partial + chunk] + Arrived(tpdus[1..], [], later)
        else Arrived(tpdus[1..], partial + chunk, later)
  }

  lemma FrameIsTaken(tpdu: Tpdu, later: seq<byte>, partial: seq<byte>)
    requires Framed(tpdu)
    ensures var frame := FrameOf(tpdu);
            && FrameLength(frame + later) == Some(|frame|)
            && TakeFrame((frame + later)[..|frame|], partial) ==
               match tpdu
               case Control(_) => Some((partial, []))
               case Data(chunk, last) =>
                 if last then Some(([], [partial + chunk])) else Some((partial + chunk, []))
  {
    var frame := FrameOf(tpdu);
    assert (frame + later)[..|frame|] == frame;
    match tpdu
    case Control(body) =>
      assert Be16(frame + later, 2) == Be16(U16(|body| + 4), 0);
      assert frame[4..] == body;
    case Data(chunk, last) =>
      assert Be16(frame + later, 2) == Be16(U16(|chunk| + 7), 0);
      assert frame[4..][3..] == chunk;
  }

  lemma FrameIsIncomplete(tpdu: Tpdu, later: seq<byte>, h: nat)
    requires Framed(tpdu) && h < |FrameOf(tpdu)|
    ensures FrameLength((FrameOf(tpdu) + later)[..h]).None?
  {
    FrameIsTaken(tpdu, later, []);
    hide FrameOf;
    if h >= 4 {
      assert Be16((FrameOf(tpdu) + later)[..h], 2) == Be16(FrameOf(tpdu) + later, 2);
    }
  }

  /** Parsing any prefix of a sent stream yields the PDUs that are complete in it. */
  lemma {:induction false} PrefixParse(tpdus: seq<Tpdu>, partial: seq<byte>, h: nat)
    requires AllFramed(tpdus)
    requires h <= |StreamOf(tpdus)|
    ensures Drain(StreamOf(tpdus)[..h], partial).Some?
    ensures Drain(StreamOf(tpdus)[..h], partial).value.pdus == Arrived(tpdus, partial, h)
  {
    hide FrameOf, TakeFrame;
    if tpdus == [] {
    } else {
      var frame, later, stream := FrameOf(tpdus[0]), StreamOf(tpdus[1..]), StreamOf(tpdus);
      if h < |frame| {
        FrameIsIncomplete(tpdus[0], later, h);
      } else {
        assert stream[..h] == frame + later[..h - |frame|];
        FrameIsTaken(tpdus[0], later[..h - |frame|], partial);
        var partial' := TakeFrame(stream[..h][..|frame|], partial).value.0;
        assert stream[..h][|frame|..] == later[..h - |frame|];
        PrefixParse(tpdus[1..], partial', h - |frame|);
      }
    }
  }

  /** A direction delivers, over any network, frames of a well-formed stream. */
  predicate Sends(segments: seq<Segment>, key: Key, base: nat, tpdus: seq<Tpdu>) {
    AllFramed(tpdus) && Delivers(segments, key, base, StreamOf(tpdus))
  }

  /** It comes out as exactly the PDUs complete among the delivered octets. */
  predicate Receives(segments: seq<Segment>, key: Key, base: nat, tpdus: seq<Tpdu>) {
    AllFramed(tpdus) && PdusFor(Emitted(segments), key) == Arrived(tpdus, [], High(segments, key, base))
  }

  /** Sender to reassembler: such a direction is parsed, and exactly the complete PDUs
      among the delivered octets come out, whole and in order. */
  lemma EndToEnd(segments: seq<Segment>, key: Key, base: nat, tpdus: seq<Tpdu>)
    requires Sends(segments, key, base, tpdus)
    ensures Parses(segments, key) && Receives(segments, key, base, tpdus)
  {
    hide Drain, TrackOf, Emitted, Arrived, StreamOf, Delivers;
    PrefixParse(tpdus, [], StreamHigh(segments, key, base, StreamOf(tpdus)));
    SegmentationIsIrrelevant(segments, key, base, StreamOf(tpdus));
  }

  /** When every direction does so, the whole capture is reassembled: `Messages` returns a
      result, with the complete PDUs of every direction. */
  lemma NetworkIsReassembled(segments: seq<Segment>, base: Key -> nat, tpdus: Key -> seq<Tpdu>)
    requires forall key: Key :: Sends(segments, key, base(key), tpdus(key))
    ensures !Broken(segments)
    ensures forall key: Key :: Receives(segments, key, base(key), tpdus(key))
  {
    hide Parses, Sends, Receives;
    forall key: Key
      ensures Parses(segments, key) && Receives(segments, key, base(key), tpdus(key))
    {
      assert Sends(segments, key, base(key), tpdus(key));
      EndToEnd(segments, key, base(key), tpdus(key));
    }
  }
}
