/** What the reassembler's messages say of themselves: which side sent each, and in which
    captured frame it was completed. */
module ReassemblyMessages {
  import opened Bytes
  import opened Reassembly

  // --- frames and segments, octet by octet ---

  /** The TPDU of a frame starts at octet 4: a length indicator, a kind, and for a data TPDU
      a number whose top bit ends the PDU. What follows the header is data; other kinds carry
      none. The source indexes past the end of anything shorter. */
  lemma FrameOctets(tpkt: seq<byte>, partial: seq<byte>)
    ensures TakeFrame(tpkt, partial).None? <==> |tpkt| < 6 || (tpkt[5] >= 0xf0 && |tpkt| == 6)
    ensures |tpkt| >= 6 && tpkt[5] < 0xf0 ==> TakeFrame(tpkt, partial) == Some((partial, []))
    ensures |tpkt| >= 7 && tpkt[5] >= 0xf0 ==>
              var start := 5 + tpkt[4] as int;
              var data := partial + (if start <= |tpkt| then tpkt[start..] else []);
              TakeFrame(tpkt, partial) == if tpkt[6] >= 0x80 then Some(([], [data])) else Some((data, []))
  {
    if |tpkt| >= 6 {
      var cotp, start := tpkt[4..], 5 + tpkt[4] as int;
      assert cotp[0] == tpkt[4] && cotp[1] == tpkt[5];
      if start <= |tpkt| {
        assert cotp[1 + cotp[0]..] == tpkt[start..];
      }
    }
  }

  /** A frame is complete once its big-endian length, at octet 2, is there. */
  lemma LengthOctets(buffer: seq<byte>)
    ensures FrameLength(buffer).Some? <==>
            |buffer| >= 4 && |buffer| >= 256 * buffer[2] as int + buffer[3]
    ensures FrameLength(buffer).Some? ==> FrameLength(buffer).value == 256 * buffer[2] as int + buffer[3]
  {
  }

  /** Any segment at all: a SYN sets the next position; of data, the octets from the next
      position on are new, whether or not they leave a gap, and end at the next position. */
  lemma SegmentOctets(track: Track, segment: Segment)
    ensures segment.syn ==> Accept(track, segment) == Track(Some(segment.position + 1), track.stream)
    ensures !segment.syn ==>
              var size, end := |segment.payload|, segment.position + |segment.payload|;
              var seen: nat := if track.expected.Some? && track.expected.value > segment.position
                              then track.expected.value - segment.position else 0;
              Accept(track, segment) ==
              if seen >= size then track else Track(Some(end), track.stream + segment.payload[seen..])
  {
    if !segment.syn {
      assert segment.payload[0..] == segment.payload;
      if segment.payload == [] {
        assert track.stream + [] == track.stream;
      }
    }
  }

  // --- every message ---

  /** Segment `n` completed the `j`-th PDU of its direction. */
  predicate CompletedIn(segments: seq<Segment>, key: Key, n: nat, j: nat, pdu: seq<byte>) {
    && n < |segments| && segments[n].key == key
    && |PdusOf(TrackOf(segments[..n], key).stream)| <= j < |PdusOf(TrackOf(segments[..n + 1], key).stream)|
    && PdusOf(TrackOf(segments[..n + 1], key).stream)[j] == pdu
  }

  /** Each message is marked as the client's exactly when it was sent to port 102, and bears
      the number of the segment of its direction that completed it; messages of a direction
      are numbered in order. */
  lemma {:induction false} MessageOrigin(segments: seq<Segment>, k: nat) returns (n: nat)
    requires !Broken(segments) && k < |Emitted(segments)|
    ensures n < |segments|
    ensures var emission := Emitted(segments)[k];
            && (emission.message.fromClient <==> emission.key.dport == 102)
            && CompletedIn(segments, emission.key, n, |PdusFor(Emitted(segments)[..k], emission.key)|,
                           emission.message.pdu)
            && emission.message.frame == segments[n].number
    decreases |segments|
  {
    hide Emitted, Completed, PdusFor, Broken, CompletedIn;
    NothingIsEmitted();
    var front := segments[..|segments| - 1];
    FrontIsParsed(segments);
    if k < |Emitted(front)| {
      n := MessageOrigin(front, k);
      EarlierEmission(segments, k);
      var emission := Emitted(segments)[k];
      CompletedEarlier(segments, emission.key, n, |PdusFor(Emitted(segments)[..k], emission.key)|,
                       emission.message.pdu);
    } else {
      n := |segments| - 1;
      LastEmission(segments, k - |Emitted(front)|);
    }
  }

  lemma NothingIsEmitted()
    ensures Emitted([]) == []
  {
  }

  lemma EarlierEmission(segments: seq<Segment>, k: nat)
    requires |segments| > 0 && k < |Emitted(segments[..|segments| - 1])|
    ensures k < |Emitted(segments)| && Emitted(segments)[k] == Emitted(segments[..|segments| - 1])[k]
    ensures Emitted(segments)[..k] == Emitted(segments[..|segments| - 1])[..k]
  {
    hide Completed;
  }

  lemma CompletedEarlier(segments: seq<Segment>, key: Key, n: nat, j: nat, pdu: seq<byte>)
    requires |segments| > 0 && CompletedIn(segments[..|segments| - 1], key, n, j, pdu)
    ensures CompletedIn(segments, key, n, j, pdu) && segments[..|segments| - 1][n] == segments[n]
  {
    hide TrackOf, PdusOf;
    var front := segments[..|segments| - 1];
    assert front[..n] == segments[..n] && front[..n + 1] == segments[..n + 1];
  }

  lemma LastEmission(segments: seq<Segment>, i: nat)
    requires |segments| > 0 && !Broken(segments)
    requires |Emitted(segments[..|segments| - 1])| + i < |Emitted(segments)|
    ensures var n, k := |segments| - 1, |Emitted(segments[..|segments| - 1])| + i;
            var emission := Emitted(segments)[k];
            && (emission.message.fromClient <==> emission.key.dport == 102)
            && CompletedIn(segments, emission.key, n, |PdusFor(Emitted(segments)[..k], emission.key)|,
                           emission.message.pdu)
            && emission.message.frame == segments[n].number
  {
    hide CompletedIn, Emitted, Completed, PdusFor, Broken;
    LastIsCompleted(segments, i);
    LastCompletes(segments, i);
  }

  lemma LastIsCompleted(segments: seq<Segment>, i: nat)
    requires |segments| > 0 && |Emitted(segments[..|segments| - 1])| + i < |Emitted(segments)|
    ensures i < |Completed(segments)|
    ensures Emitted(segments)[|Emitted(segments[..|segments| - 1])| + i] == Completed(segments)[i]
  {
    hide Completed;
  }

  lemma FrontIsParsed(segments: seq<Segment>)
    requires |segments| > 0 && !Broken(segments)
    ensures !Broken(segments[..|segments| - 1])
  {
    var front := segments[..|segments| - 1];
    forall key: Key ensures Parses(front, key) {
      assert Parses(segments, key);
      StreamSplit(segments, key);
    }
  }

  lemma TagAt(number: nat, key: Key, pdus: seq<seq<byte>>, i: nat)
    requires i < |pdus|
    ensures var emission := Tag(number, key, pdus)[i];
            && emission.key == key && emission.message.pdu == pdus[i] && emission.message.frame == number
            && (emission.message.fromClient <==> key.dport == 102)
    ensures PdusFor(Tag(number, key, pdus)[..i], key) == pdus[..i]
  {
    assert Tag(number, key, pdus)[..i] == Tag(number, key, pdus[..i]);
    PdusForTag(number, key, pdus[..i], key);
  }

  lemma LastCompletes(segments: seq<Segment>, i: nat)
    requires |segments| > 0 && !Broken(segments) && i < |Completed(segments)|
    ensures var front, last := segments[..|segments| - 1], segments[|segments| - 1];
            var emission := Completed(segments)[i];
            && emission.key == last.key && emission.message.frame == last.number
            && (emission.message.fromClient <==> last.key.dport == 102)
            && CompletedIn(segments, last.key, |segments| - 1,
                           |PdusFor(Emitted(segments)[..|Emitted(front)| + i], last.key)|, emission.message.pdu)
  {
    hide TrackOf, Drain, Tag, PdusFor, Emitted, PdusOf;
    var front, last := segments[..|segments| - 1], segments[|segments| - 1];
    assert Parses(segments, last.key);
    StreamSplit(segments, last.key);
    var before, after := PdusOf(TrackOf(front, last.key).stream), PdusOf(TrackOf(segments, last.key).stream);
    TagAt(last.number, last.key, after[|before|..], i);
    DirectionsAreIndependent(front, last.key);
    EmittedPrefix(segments, i);
    PdusForAppend(Emitted(front), Completed(segments)[..i], last.key);
    assert segments[..|segments|] == segments;
  }

  lemma EmittedPrefix(segments: seq<Segment>, i: nat)
    requires |segments| > 0 && i <= |Completed(segments)|
    ensures var front := segments[..|segments| - 1];
            && |Emitted(front)| + i <= |Emitted(segments)|
            && Emitted(segments)[..|Emitted(front)| + i] == Emitted(front) + Completed(segments)[..i]
  {
    hide Completed;
  }

  /** Message `k` that the reassembler returns: its side, its frame and its octets are those
      of the next PDU of one direction, in the segment that completed it. */
  ghost predicate Attributed(segments: seq<Segment>, messages: seq<Message>, k: nat)
    requires k < |messages| == |Emitted(segments)|
  {
    var emission := Emitted(segments)[k];
    && messages[k] == emission.message && (messages[k].fromClient <==> emission.key.dport == 102)
    && exists n :: 0 <= n < |segments| && messages[k].frame == segments[n].number
                   && CompletedIn(segments, emission.key, n, |PdusFor(Emitted(segments)[..k], emission.key)|,
                                  messages[k].pdu)
  }

  /** Over a network on which every direction sends well-formed frames, the reassembler
      returns the complete PDUs of every direction, each attributed to its sender's side and
      to the frame that completed it. */
  lemma NetworkMessages(segments: seq<Segment>, base: Key -> nat, tpdus: Key -> seq<Tpdu>)
    requires forall key: Key :: Sends(segments, key, base(key), tpdus(key))
    ensures !Broken(segments)
    ensures forall key: Key :: Receives(segments, key, base(key), tpdus(key))
    ensures var messages := MessagesOf(Emitted(segments));
            forall k :: 0 <= k < |messages| ==> Attributed(segments, messages, k)
  {
    hide Sends, Receives, CompletedIn, Emitted, PdusFor;
    NetworkIsReassembled(segments, base, tpdus);
    var messages := MessagesOf(Emitted(segments));
    forall k | 0 <= k < |messages| ensures Attributed(segments, messages, k) {
      var n := MessageOrigin(segments, k);
    }
  }

  // --- both sides of one connection ---

  /** The PDUs of one side, in order. */
  function SidePdus(messages: seq<Message>, client: bool): seq<seq<byte>> {
    if messages == [] then []
    else
      var last := messages[|messages| - 1];
      SidePdus(messages[..|messages| - 1], client) + (if last.fromClient == client then [last.pdu] else [])
  }

  predicate TwoSided(emissions: seq<Emission>, client: Key, server: Key) {
    forall k :: 0 <= k < |emissions| ==>
      && emissions[k].key in [client, server]
      && (emissions[k].message.fromClient <==> emissions[k].key == client)
  }

  lemma {:induction false} SideIsDirection(emissions: seq<Emission>, client: Key, server: Key)
    requires client != server && TwoSided(emissions, client, server)
    ensures SidePdus(MessagesOf(emissions), true) == PdusFor(emissions, client)
    ensures SidePdus(MessagesOf(emissions), false) == PdusFor(emissions, server)
  {
    if emissions == [] {
    } else {
      var front := emissions[..|emissions| - 1];
      assert MessagesOf(emissions)[..|front|] == MessagesOf(front);
      SideIsDirection(front, client, server);
    }
  }

  lemma {:induction false} SilentDirection(segments: seq<Segment>, key: Key)
    requires forall i :: 0 <= i < |segments| ==> segments[i].key != key
    ensures TrackOf(segments, key) == Track(None, [])
  {
    if segments == [] {
    } else {
      SilentDirection(segments[..|segments| - 1], key);
    }
  }

  lemma OnlyTwoSpeak(segments: seq<Segment>, client: Key, server: Key)
    requires forall i :: 0 <= i < |segments| ==> segments[i].key in [client, server]
    requires Parses(segments, client) && Parses(segments, server)
    ensures !Broken(segments)
  {
    hide TrackOf;
    forall key: Key ensures Parses(segments, key) {
      if key !in [client, server] {
        SilentDirection(segments, key);
        assert FrameLength([]).None?;
      }
    }
  }

  /** On one connection to port 102, the messages returned as the client's are exactly the
      complete PDUs the client sent, the others exactly the server's, each side in order. */
  lemma BothSides(
    segments: seq<Segment>, client: Key, server: Key, clientBase: nat, serverBase: nat,
    requests: seq<Tpdu>, replies: seq<Tpdu>)
    requires client.dport == 102 && server.dport != 102
    requires forall i :: 0 <= i < |segments| ==> segments[i].key in [client, server]
    requires Sends(segments, client, clientBase, requests) && Sends(segments, server, serverBase, replies)
    ensures !Broken(segments)
    ensures var messages := MessagesOf(Emitted(segments));
            && SidePdus(messages, true) == Arrived(requests, [], High(segments, client, clientBase))
            && SidePdus(messages, false) == Arrived(replies, [], High(segments, server, serverBase))
  {
    EndToEnd(segments, client, clientBase, requests);
    EndToEnd(segments, server, serverBase, replies);
    hide Sends, Emitted, Parses, Arrived, High, PdusFor, SidePdus, MessagesOf, TwoSided;
    OnlyTwoSpeak(segments, client, server);
    EmissionsAreTwoSided(segments, client, server);
    SideIsDirection(Emitted(segments), client, server);
  }

  lemma EmissionsAreTwoSided(segments: seq<Segment>, client: Key, server: Key)
    requires client.dport == 102 && server.dport != 102 && !Broken(segments)
    requires forall i :: 0 <= i < |segments| ==> segments[i].key in [client, server]
    ensures TwoSided(Emitted(segments), client, server)
  {
    hide Emitted, PdusFor, PdusOf, TrackOf, Broken;
    var emissions := Emitted(segments);
    forall k | 0 <= k < |emissions|
      ensures emissions[k].key in [client, server]
      ensures emissions[k].message.fromClient <==> emissions[k].key == client
    {
      var n := MessageOrigin(segments, k);
    }
  }
}
