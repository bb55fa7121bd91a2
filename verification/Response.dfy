/** The session oracle's response decoder, the fuzzing campaign's response encoder,
    and the exact set of PDUs the decoder accepts. */
module Response {
  import opened Bytes
  import opened Wire
  import opened Progress

  datatype Lifecycle = Connected | Disconnected | Closed

  datatype ErrorKind =
    | InvalidInput | ProtocolError | PlcRejected | Timeout
    | PeerDisconnected | LifecycleError | TransportError | OtherError

  datatype Decoded = Accepted(statuses: seq<Status>) | Rejected(kind: ErrorKind)

  /** What a response must answer: the operation, its reference and item counts. */
  datatype Query = Query(write: bool, reference: u16, counts: seq<u16>)

  /** A successful read carries octets, as many as were asked for. */
  predicate ItemAnswers(item: Item, count: u16) {
    item.code == 255 ==> item.transport == 4 && |item.content| == count
  }

  function Answering(counts: seq<u16>): (nat, Item) -> bool {
    (i: nat, item: Item) => i < |counts| && ItemAnswers(item, counts[i])
  }

  function Signature(query: Query): seq<byte>
    requires |query.counts| < 256
  {
    [FunctionCode(query.write), |query.counts|]
  }

  /** The data section of a read, by record, from record `index` on. */
  function ReadsOf(counts: seq<u16>, data: seq<byte>, index: nat, offset: nat): Option<seq<Item>>
    requires index <= |counts| && offset <= |data|
  {
    ParseItems(|counts|, Answering(counts), data, index, offset)
  }

  function ResponseOf(query: Query, pdu: seq<byte>): Decoded
    requires |query.counts| < 256
  {
    if |pdu| < 12 then Rejected(ProtocolError)
    else
      var parameterSize, dataSize := Be16(pdu, 6) as int, Be16(pdu, 8) as int;
      if pdu[0] != 0x32 || pdu[1] !in [2, 3] || |pdu| != 12 + parameterSize + dataSize then Rejected(ProtocolError)
      else if Be16(pdu, 4) != query.reference then Rejected(ProtocolError)
      else if pdu[10] != 0 || pdu[11] != 0 then Rejected(PlcRejected)
      else if pdu[12..12 + parameterSize] != Signature(query) then Rejected(ProtocolError)
      else
        var data := pdu[12 + parameterSize..];
        if query.write then
          if |data| != |query.counts| then Rejected(ProtocolError) else Accepted(Statuses(data))
        else if ReadsOf(query.counts, data, 0, 0).Some? then Accepted([])
        else Rejected(ProtocolError)
  }

  lemma ReadsStep(counts: seq<u16>, data: seq<byte>, index: nat, offset: nat)
    requires index < |counts| && offset <= |data|
    ensures var head := ParseItem(data, offset, index + 1 < |counts|);
            ReadsOf(counts, data, index, offset) ==
            if head.Some? && ItemAnswers(head.value.0, counts[index])
            then Prepend(head.value.0, ReadsOf(counts, data, index + 1, head.value.1))
            else None
  {
    hide ParseItem, ItemAnswers;
  }

  lemma ReadsEnd(counts: seq<u16>, data: seq<byte>, offset: nat)
    requires offset <= |data|
    ensures ReadsOf(counts, data, |counts|, offset) == if offset == |data| then Some([]) else None
  {
  }

  method ReadData(counts: seq<u16>, data: seq<byte>) returns (ok: bool)
    ensures ok <==> ReadsOf(counts, data, 0, 0).Some?
  {
    hide ReadsOf;
    var offset: nat := 0;
    for index := 0 to |counts|
      invariant offset <= |data|
      invariant ReadsOf(counts, data, 0, 0).Some? <==> ReadsOf(counts, data, index, offset).Some?
    {
      ReadsStep(counts, data, index, offset);
      if offset + 4 > |data| {
        return false;
      }
      var code, transport, length := data[offset], data[offset + 1], Be16(data, offset + 2);
      offset := offset + 4;
      var size: nat;
      if transport == 9 {
        size := length;
      } else if length % 8 != 0 {
        return false;
      } else {
        size := length / 8;
      }
      if offset + size > |data| {
        return false;
      }
      offset := offset + size;
      if index + 1 < |counts| && size % 2 == 1 {
        if offset == |data| {
          return false;
        }
        offset := offset + 1;
      }
      if code == 255 && (transport != 4 || size != counts[index]) {
        return false;
      }
    }
    ReadsEnd(counts, data, offset);
    return offset == |data|;
  }

  method Decode(query: Query, pdu: seq<byte>) returns (decoded: Decoded)
    requires |query.counts| < 256
    ensures decoded == ResponseOf(query, pdu)
  {
    if |pdu| < 12 {
      return Rejected(ProtocolError);
    }
    var parameterSize, dataSize := Be16(pdu, 6) as int, Be16(pdu, 8) as int;
    if pdu[0] != 0x32 || pdu[1] !in [2, 3] || |pdu| != 12 + parameterSize + dataSize {
      return Rejected(ProtocolError);
    }
    if Be16(pdu, 4) != query.reference {
      return Rejected(ProtocolError);
    }
    if pdu[10] != 0 || pdu[11] != 0 {
      return Rejected(PlcRejected);
    }
    var width := |query.counts|;
    var parameters := pdu[12..12 + parameterSize];
    if parameters != [FunctionCode(query.write), width] {
      return Rejected(ProtocolError);
    }
    var data := pdu[12 + parameterSize..];
    if query.write {
      if |data| != width {
        return Rejected(ProtocolError);
      }
      return Accepted(Statuses(data));
    }
    var ok := ReadData(query.counts, data);
    return if ok then Accepted([]) else Rejected(ProtocolError);
  }

  /** The answers a peer can give: a status per written item, or a record per item read. */
  datatype Answer = Codes(codes: seq<byte>) | Records(items: seq<Item>)

  predicate Answers(query: Query, answer: Answer) {
    match answer
    case Codes(codes) => query.write && |codes| == |query.counts|
    case Records(items) =>
      !query.write && |items| == |query.counts| && Canonical(items) && AllCheck(Answering(query.counts), 0, items)
      && |Layout(items)| < 0x1_0000
  }

  function AnswerData(query: Query, answer: Answer): seq<byte>
    requires Answers(query, answer)
  {
    match answer case Codes(codes) => codes case Records(items) => Layout(items)
  }

  function AnswerStatuses(answer: Answer): seq<Status> {
    match answer case Codes(codes) => Statuses(codes) case Records(_) => []
  }

  /** An acknowledgement: its kind, the opaque reserved field, and the answer. */
  function AnswerPdu(query: Query, kind: byte, reserved: u16, answer: Answer): seq<byte>
    requires |query.counts| < 256 && Answers(query, answer)
  {
    var data := AnswerData(query, answer);
    [0x32, kind] + U16(reserved) + U16(query.reference) + U16(2) + U16(|data|) + [0, 0] + Signature(query) + data
  }

  /** The answer carried by an accepted PDU. */
  function AnswerOf(query: Query, pdu: seq<byte>): (answer: Answer)
    requires |query.counts| < 256 && ResponseOf(query, pdu).Accepted?
  {
    if query.write then Codes(pdu[14..]) else Records(ReadsOf(query.counts, pdu[14..], 0, 0).value)
  }

  /** Every answer is accepted, whatever its reserved field, and yields its statuses in order. */
  lemma AnswersAreAccepted(query: Query, kind: byte, reserved: u16, answer: Answer)
    requires |query.counts| < 256 && Answers(query, answer) && kind in [2, 3]
    ensures ResponseOf(query, AnswerPdu(query, kind, reserved, answer)) == Accepted(AnswerStatuses(answer))
  {
    var pdu, data := AnswerPdu(query, kind, reserved, answer), AnswerData(query, answer);
    HeaderFields(kind, reserved, query.reference, Signature(query), data);
    assert pdu == Header(kind, reserved, query.reference, 2, |data|) + Signature(query) + data;
    if !query.write {
      ParseItemsExact(|query.counts|, Answering(query.counts), data, 0, 0, answer.items);
      assert data[0..] == data;
    }
  }

  /** Nothing else is accepted: an accepted PDU is the encoding of the answer read from it. */
  lemma AcceptedAreAnswers(query: Query, pdu: seq<byte>)
    requires |query.counts| < 256 && ResponseOf(query, pdu).Accepted?
    ensures var answer := AnswerOf(query, pdu);
            && Answers(query, answer) && pdu[1] in [2, 3]
            && pdu == AnswerPdu(query, pdu[1], Be16(pdu, 2), answer)
            && ResponseOf(query, pdu) == Accepted(AnswerStatuses(answer))
  {
    var data := pdu[14..];
    var size: nat := Be16(pdu, 6);
    assert |pdu[12..12 + size]| == 2;
    assert pdu == pdu[..12] + pdu[12..14] + data;
    if !query.write {
      ParseItemsSound(|query.counts|, Answering(query.counts), data, 0, 0);
      assert data[0..] == data;
    }
    HeaderInverse(pdu);
  }

  lemma HeaderInverse(s: seq<byte>)
    requires |s| >= 12 && s[0] == 0x32 && s[10] == 0 && s[11] == 0
    ensures s[..12] == Header(s[1], Be16(s, 2), Be16(s, 4), Be16(s, 6), Be16(s, 8))
  {
    U16Inverse(s, 2);
    U16Inverse(s, 4);
    U16Inverse(s, 6);
    U16Inverse(s, 8);
  }

  function Header(kind: byte, reserved: u16, reference: u16, parameterSize: u16, dataSize: u16): (s: seq<byte>)
    ensures |s| == 12
  {
    [0x32, kind] + U16(reserved) + U16(reference) + U16(parameterSize) + U16(dataSize) + [0, 0]
  }

  lemma HeaderFields(kind: byte, reserved: u16, reference: u16, parameters: seq<byte>, data: seq<byte>)
    requires |parameters| < 0x1_0000 && |data| < 0x1_0000
    ensures var p := Header(kind, reserved, reference, |parameters|, |data|) + parameters + data;
            && p[0] == 0x32 && p[1] == kind && Be16(p, 2) == reserved && Be16(p, 4) == reference
            && Be16(p, 6) == |parameters| && Be16(p, 8) == |data| && p[10] == 0 && p[11] == 0
            && p[12..12 + |parameters|] == parameters && p[12 + |parameters|..] == data
  {
  }

  /** The campaign's random choices for one item, as parameters. */
  datatype Choice = Choice(code: byte, filler: bool, octetTransport: bool)

  function ChosenItem(range: Range, choice: Choice): Item {
    var content := if choice.code == 255 then Payload(range) else if choice.filler then [0xaa] else [];
    Item(choice.code, if choice.code != 255 && choice.octetTransport then 9 else 4, content, 0)
  }

  function ChosenItems(ranges: seq<Range>, choices: seq<Choice>): (items: seq<Item>)
    requires |ranges| == |choices|
    ensures |items| == |ranges|
    ensures forall i :: 0 <= i < |items| ==> items[i] == ChosenItem(ranges[i], choices[i])
  {
    seq(|ranges|, i requires 0 <= i < |ranges| => ChosenItem(ranges[i], choices[i]))
  }

  function ChosenCodes(choices: seq<Choice>): (codes: seq<byte>)
    ensures |codes| == |choices| && forall i :: 0 <= i < |codes| ==> codes[i] == choices[i].code
  {
    seq(|choices|, i requires 0 <= i < |choices| => choices[i].code)
  }

  function CountsOf(ranges: seq<Range>): (counts: seq<u16>)
    ensures |counts| == |ranges| && forall i :: 0 <= i < |counts| ==> counts[i] == ranges[i].count
  {
    seq(|ranges|, i requires 0 <= i < |ranges| => ranges[i].count)
  }

  function ChosenAnswer(write: bool, ranges: seq<Range>, choices: seq<Choice>): Answer
    requires |ranges| == |choices|
  {
    if write then Codes(ChosenCodes(choices)) else Records(ChosenItems(ranges, choices))
  }

  /** No length field of the chosen answer overflows its sixteen bits. */
  predicate Fits(write: bool, ranges: seq<Range>, choices: seq<Choice>)
    requires |ranges| == |choices|
  {
    if write then |choices| < 0x1_0000
    else Sized(ChosenItems(ranges, choices)) && |Layout(ChosenItems(ranges, choices))| < 0x1_0000
  }

  lemma ChosenAnswers(write: bool, reference: u16, ranges: seq<Range>, choices: seq<Choice>)
    requires |ranges| == |choices| && Fits(write, ranges, choices)
    ensures Answers(Query(write, reference, CountsOf(ranges)), ChosenAnswer(write, ranges, choices))
  {
    AllCheckIntro(Answering(CountsOf(ranges)), 0, ChosenItems(ranges, choices));
  }

  method ReplyRecord(range: Range, choice: Choice, more: bool) returns (record: Option<seq<byte>>)
    ensures record.None? <==> LengthField(ChosenItem(range, choice)) >= 0x1_0000
    ensures record.Some? ==> record.value == Padded(ChosenItem(range, choice), more)
  {
    var content := if choice.code == 255 then Payload(range) else if choice.filler then [0xaa] else [];
    var transport: byte := if choice.code == 255 then 4 else if choice.octetTransport then 9 else 4;
    var length := |content| * (if transport == 9 then 1 else 8);
    if length > 65535 {
      return None;
    }
    var data := [choice.code, transport] + U16(length) + content;
    if more && |content| % 2 == 1 {
      data := data + [0];
    }
    return Some(data);
  }

  method ReplyData(ranges: seq<Range>, choices: seq<Choice>) returns (data: Option<seq<byte>>)
    requires |ranges| == |choices|
    ensures data.None? <==> !Sized(ChosenItems(ranges, choices))
    ensures data.Some? ==> data.value == Layout(ChosenItems(ranges, choices))
  {
    var built: seq<byte> := [];
    ghost var items := ChosenItems(ranges, choices);
    for index := 0 to |ranges|
      invariant forall i :: 0 <= i < index ==> LengthField(items[i]) < 0x1_0000
      invariant Sized(items) ==> built + Layout(items[index..]) == Layout(items)
    {
      var record := ReplyRecord(ranges[index], choices[index], index + 1 < |ranges|);
      if record.None? {
        return None;
      }
      if Sized(items) {
        LayoutStep(items, index);
      }
      built := built + record.value;
    }
    return Some(built);
  }

  /** An ACK_DATA answer with a zero reserved field is a plain packet. */
  lemma AnswerIsPacket(query: Query, answer: Answer)
    requires |query.counts| < 256 && Answers(query, answer)
    ensures |AnswerData(query, answer)| < 0x1_0000
    ensures AnswerPdu(query, 3, 0, answer) == Packet(3, query.reference, Signature(query), AnswerData(query, answer))
  {
    assert |Signature(query)| == 2;
    assert U16(0) == [0, 0];
    assert [0x32, 3, 0, 0] == [0x32, 3] + U16(0);
  }

  /** The campaign's unmutated reply: refused only when a length overflows; otherwise
      the decoder accepts it and recovers the write statuses in order. */
  method Reply(write: bool, reference: u16, ranges: seq<Range>, choices: seq<Choice>)
    returns (pdu: Option<seq<byte>>)
    requires |ranges| == |choices| < 256
    ensures pdu.Some? <==> Fits(write, ranges, choices)
    ensures var query := Query(write, reference, CountsOf(ranges));
            pdu.Some? ==>
              && Answers(query, ChosenAnswer(write, ranges, choices))
              && pdu.value == AnswerPdu(query, 3, 0, ChosenAnswer(write, ranges, choices))
              && ResponseOf(query, pdu.value) == Accepted(if write then Statuses(ChosenCodes(choices)) else [])
  {
    hide ResponseOf, AnswerPdu, Packet, Layout, ChosenItem;
    var data: seq<byte> := [];
    if write {
      for index := 0 to |ranges|
        invariant data == ChosenCodes(choices)[..index]
      {
        data := data + [choices[index].code];
      }
      assert ChosenCodes(choices)[..|ranges|] == ChosenCodes(choices);
    } else {
      var built := ReplyData(ranges, choices);
      if built.None? {
        return None;
      }
      data := built.value;
    }
    if |data| > 65535 {
      return None;
    }
    ghost var query, answer := Query(write, reference, CountsOf(ranges)), ChosenAnswer(write, ranges, choices);
    ChosenAnswers(write, reference, ranges, choices);
    AnswerIsPacket(query, answer);
    AnswersAreAccepted(query, 3, 0, answer);
    return Some(Packet(3, reference, [FunctionCode(write), |ranges|], data));
  }
}
