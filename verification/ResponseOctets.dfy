/** Which octets a response must have to be accepted, what they decode to, and how every
    other response is refused. */
module ResponseOctets {
  import opened Bytes
  import opened Wire
  import opened Progress
  import opened Response
  import opened Multi
  import opened Session
  import opened WireOctets

  /** An acknowledgement of this reference whose sections fill the PDU. */
  predicate Acknowledges(pdu: seq<byte>, reference: u16) {
    && |pdu| >= 12 && pdu[0] == 0x32 && (pdu[1] == 2 || pdu[1] == 3)
    && |pdu| == 12 + Be16(pdu, 6) + Be16(pdu, 8) && Be16(pdu, 4) == reference
  }

  /** No error octets, and the function and item count that were asked for. */
  predicate Matches(pdu: seq<byte>, reference: u16, write: bool, width: nat) {
    && Acknowledges(pdu, reference) && pdu[10] == 0 && pdu[11] == 0 && Be16(pdu, 6) == 2 && |pdu| >= 14
    && pdu[12] == (if write then 5 else 4) && pdu[13] == width
  }

  /** A response is refused for the PLC's reason exactly when it is ours and carries an
      error octet; every other refusal is a protocol error. */
  lemma Refusals(query: Query, pdu: seq<byte>)
    requires |query.counts| < 256
    ensures ResponseOf(query, pdu) == Rejected(PlcRejected) <==>
            Acknowledges(pdu, query.reference) && (pdu[10] != 0 || pdu[11] != 0)
    ensures ResponseOf(query, pdu).Rejected? ==> ResponseOf(query, pdu).kind in [PlcRejected, ProtocolError]
    ensures ResponseOf(query, pdu).Accepted? ==> Matches(pdu, query.reference, query.write, |query.counts|)
  {
    hide Be16, ReadsOf, Statuses;
  }

  lemma ParametersMatch(query: Query, pdu: seq<byte>)
    requires |query.counts| < 256 && Acknowledges(pdu, query.reference)
    ensures pdu[12..12 + Be16(pdu, 6)] == Signature(query) <==>
            Be16(pdu, 6) == 2 && |pdu| >= 14
            && pdu[12] == (if query.write then 5 else 4) && pdu[13] == |query.counts|
  {
    hide Be16;
    var parameters := pdu[12..12 + Be16(pdu, 6)];
    if |parameters| == 2 {
      assert parameters == [pdu[12], pdu[13]];
    }
  }

  /** The outcome a status octet stands for: 255 is success, any other its own failure. */
  predicate StandsFor(status: Outcome, code: byte) {
    if code == 255 then status == Success else status == Failure(code)
  }

  /** A write is accepted exactly when it matches and has one octet per item, and each octet
      decides its item's outcome. */
  lemma WriteVerdict(query: Query, pdu: seq<byte>)
    requires |query.counts| < 256 && query.write
    ensures var n := |query.counts|;
            ResponseOf(query, pdu).Accepted? <==> Matches(pdu, query.reference, true, n) && |pdu| == 14 + n
    ensures var decoded := ResponseOf(query, pdu);
            decoded.Accepted? ==>
              && |decoded.statuses| == |query.counts|
              && forall i :: 0 <= i < |decoded.statuses| ==> StandsFor(decoded.statuses[i], pdu[14 + i])
  {
    hide Be16, ReadsOf;
    if Acknowledges(pdu, query.reference) {
      ParametersMatch(query, pdu);
    }
    hide Signature;
  }

  /** One read record from `at` to `next`: a code, a transport, a length in octets or whole
      octets of bits, the content, and a padding octet after odd content when `more` follow.
      A successful one carries `count` octets. */
  predicate RecordSpans(pdu: seq<byte>, at: nat, next: nat, count: u16, more: bool) {
    && at + 4 <= |pdu|
    && var transport, length := pdu[at + 1], Be16(pdu, at + 2);
       && (transport == 9 || length % 8 == 0)
       && var size: nat := if transport == 9 then length else length / 8;
          && next == at + 4 + size + (if more then size % 2 else 0) && next <= |pdu|
          && (pdu[at] == 255 ==> transport == 4 && size == count)
  }

  /** Records that fill the PDU from octet 14 on. */
  predicate RecordsSpan(pdu: seq<byte>, counts: seq<u16>, starts: seq<nat>) {
    && |starts| == |counts| + 1 && starts[0] == 14 && starts[|counts|] == |pdu|
    && forall i :: 0 <= i < |counts| ==> RecordSpans(pdu, starts[i], starts[i + 1], counts[i], i + 1 < |counts|)
  }

  lemma RecordIsParsed(pdu: seq<byte>, offset: nat, next: nat, count: u16, more: bool)
    requires |pdu| >= 14 && 14 + offset <= |pdu|
    ensures var head := ParseItem(pdu[14..], offset, more);
            && (head.Some? && ItemAnswers(head.value.0, count) ==>
                  && RecordSpans(pdu, 14 + offset, 14 + head.value.1, count, more)
                  && ContentSpans(pdu, 14 + offset, head.value.0))
            && (RecordSpans(pdu, 14 + offset, next, count, more) ==>
                  head.Some? && ItemAnswers(head.value.0, count) && next == 14 + head.value.1)
  {
    var data := pdu[14..];
    if offset + 4 <= |data| {
      assert data[offset] == pdu[14 + offset] && data[offset + 1] == pdu[14 + offset + 1];
      assert Be16(data, offset + 2) == Be16(pdu, 14 + offset + 2);
      hide Be16;
      var head := ParseItem(data, offset, more);
      if head.Some? {
        var size := |head.value.0.content|;
        assert data[offset + 4..offset + 4 + size] == pdu[14 + offset + 4..14 + offset + 4 + size];
      }
    }
  }

  /** The code and content of a record, where it stands. */
  predicate ContentSpans(pdu: seq<byte>, at: nat, item: Item) {
    at + 4 + |item.content| <= |pdu| && item.code == pdu[at] && item.content == pdu[at + 4..at + 4 + |item.content|]
  }

  /** The starts of the records a parse has found, from record `index` on. */
  lemma {:induction false} ParsedSpans(counts: seq<u16>, pdu: seq<byte>, index: nat, offset: nat)
    returns (starts: seq<nat>)
    requires |pdu| >= 14 && index <= |counts| && 14 + offset <= |pdu| && ReadsOf(counts, pdu[14..], index, offset).Some?
    ensures |starts| == |counts| - index + 1 && starts[0] == 14 + offset && starts[|counts| - index] == |pdu|
    ensures forall i :: index <= i < |counts| ==>
              RecordSpans(pdu, starts[i - index], starts[i - index + 1], counts[i], i + 1 < |counts|)
    ensures var items := ReadsOf(counts, pdu[14..], index, offset).value;
            |items| == |counts| - index && forall i :: 0 <= i < |items| ==> ContentSpans(pdu, starts[i], items[i])
    decreases |counts| - index
  {
    hide ParseItem, ItemAnswers, RecordSpans, ContentSpans, ReadsOf;
    if index == |counts| {
      ReadsEnd(counts, pdu[14..], offset);
      starts := [14 + offset];
    } else {
      ReadsStep(counts, pdu[14..], index, offset);
      RecordIsParsed(pdu, offset, 0, counts[index], index + 1 < |counts|);
      var rest := ParsedSpans(counts, pdu, index + 1, ParseItem(pdu[14..], offset, index + 1 < |counts|).value.1);
      starts := [14 + offset] + rest;
    }
  }

  lemma {:induction false} SpansAreParsed(counts: seq<u16>, pdu: seq<byte>, starts: seq<nat>, index: nat)
    requires |pdu| >= 14 && RecordsSpan(pdu, counts, starts) && index <= |counts| && 14 <= starts[index] <= |pdu|
    ensures ReadsOf(counts, pdu[14..], index, starts[index] - 14).Some?
    decreases |counts| - index
  {
    hide ParseItem, ItemAnswers, ReadsOf;
    if index == |counts| {
      ReadsEnd(counts, pdu[14..], starts[index] - 14);
    } else {
      assert RecordSpans(pdu, starts[index], starts[index + 1], counts[index], index + 1 < |counts|);
      ReadsStep(counts, pdu[14..], index, starts[index] - 14);
      RecordIsParsed(pdu, starts[index] - 14, starts[index + 1], counts[index], index + 1 < |counts|);
      SpansAreParsed(counts, pdu, starts, index + 1);
    }
  }

  lemma ReadNeedsData(query: Query, pdu: seq<byte>)
    requires |query.counts| < 256 && !query.write
    ensures ResponseOf(query, pdu).Accepted? <==>
            Matches(pdu, query.reference, false, |query.counts|) && ReadsOf(query.counts, pdu[14..], 0, 0).Some?
    ensures ResponseOf(query, pdu).Accepted? ==> ResponseOf(query, pdu) == Accepted([])
  {
    hide Be16, ReadsOf;
    if Acknowledges(pdu, query.reference) {
      ParametersMatch(query, pdu);
    }
    hide Signature;
  }

  /** A read is accepted exactly when it matches and some division of its octets into
      records fills it. */
  lemma ReadVerdict(query: Query, pdu: seq<byte>)
    requires |query.counts| < 256 && !query.write
    ensures ResponseOf(query, pdu).Accepted? <==>
            && Matches(pdu, query.reference, false, |query.counts|)
            && exists starts :: RecordsSpan(pdu, query.counts, starts)
    ensures ResponseOf(query, pdu).Accepted? ==> ResponseOf(query, pdu) == Accepted([])
  {
    ReadNeedsData(query, pdu);
    hide ResponseOf, ReadsOf, RecordSpans, Acknowledges;
    if Matches(pdu, query.reference, false, |query.counts|) {
      if ReadsOf(query.counts, pdu[14..], 0, 0).Some? {
        var starts := ParsedSpans(query.counts, pdu, 0, 0);
        assert RecordsSpan(pdu, query.counts, starts);
      }
      if starts :| RecordsSpan(pdu, query.counts, starts) {
        SpansAreParsed(query.counts, pdu, starts, 0);
      }
    }
  }

  // --- the campaign's replies ---

  /** Where the record answering item `i` starts in the data of a chosen reply. */
  function ChosenOffset(ranges: seq<Range>, choices: seq<Choice>, i: nat): nat
    requires i <= |ranges| == |choices|
  {
    if i == 0 then 0
    else
      var size: nat := if choices[0].code == 255 then ranges[0].count else if choices[0].filler then 1 else 0;
      4 + size + size % 2 + ChosenOffset(ranges[1..], choices[1..], i - 1)
  }

  /** A successful record carries the range's octets in bits; any other carries nothing, or
      one filler octet, counted in octets or in bits as chosen. */
  predicate ChosenRecord(p: seq<byte>, at: nat, range: Range, choice: Choice) {
    && at + 4 <= |p| && p[at] == choice.code
    && if choice.code == 255 then
         && at + 4 + range.count <= |p| && p[at + 1] == 4 && Be16(p, at + 2) == 8 * range.count
         && FilledFor(p[at + 4..at + 4 + range.count], range)
       else
         && p[at + 1] == (if choice.octetTransport then 9 else 4)
         && Be16(p, at + 2) == (if !choice.filler then 0 else if choice.octetTransport then 1 else 8)
         && (choice.filler ==> at + 4 < |p| && p[at + 4] == 0xaa)
  }

  lemma {:induction false} ChosenOffsets(ranges: seq<Range>, choices: seq<Choice>, i: nat)
    requires i <= |ranges| == |choices|
    ensures Offset(ChosenItems(ranges, choices), i) == ChosenOffset(ranges, choices, i)
  {
    hide Payload;
    if i == 0 {
    } else {
      assert ChosenItems(ranges, choices)[1..] == ChosenItems(ranges[1..], choices[1..]);
      ChosenOffsets(ranges[1..], choices[1..], i - 1);
    }
  }

  lemma RecordIsChosen(p: seq<byte>, at: nat, range: Range, choice: Choice, more: bool)
    requires RecordAt(p, at, ChosenItem(range, choice), more)
    ensures ChosenRecord(p, at, range, choice)
  {
    var content := ChosenItem(range, choice).content;
    assert p[at + 4..at + 4 + |content|] == content;
    if choice.code != 255 && choice.filler {
      assert p[at + 4] == content[0];
    }
  }

  /** The octets of the campaign's unmutated reply. */
  lemma ReplyOctets(write: bool, reference: u16, ranges: seq<Range>, choices: seq<Choice>, i: nat)
    requires i < |ranges| == |choices| < 256 && Fits(write, ranges, choices)
    ensures var query, answer := Query(write, reference, CountsOf(ranges)), ChosenAnswer(write, ranges, choices);
            && Answers(query, answer)
            && var p := AnswerPdu(query, 3, 0, answer);
               if write then |p| == 14 + |ranges| && p[14 + i] == choices[i].code
               else ChosenRecord(p, 14 + ChosenOffset(ranges, choices, i), ranges[i], choices[i])
  {
    var query, answer := Query(write, reference, CountsOf(ranges)), ChosenAnswer(write, ranges, choices);
    ChosenAnswers(write, reference, ranges, choices);
    AnswerIsPacket(query, answer);
    hide Layout, Packet, Offset, ChosenOffset, ChosenItem, RecordAt, ChosenRecord, AnswerPdu;
    PacketEndsInData(3, reference, Signature(query), AnswerData(query, answer));
    var p := AnswerPdu(query, 3, 0, answer);
    if write {
      assert p[14 + i] == p[14..][i];
    } else {
      RecordsBehind(p[..14], answer.items, i);
      ChosenOffsets(ranges, choices, i);
      RecordIsChosen(p, 14 + ChosenOffset(ranges, choices, i), ranges[i], choices[i], i + 1 < |ranges|);
    }
  }

  // --- the strict decoder ---

  /** What the strict decoder makes of each octet of a write. */
  lemma StrictWrites(query: Query, pdu: seq<byte>)
    requires |query.counts| < 256 && query.write && MultiOf(query, pdu).Some?
    ensures var results := MultiOf(query, pdu).value;
            && |pdu| == 14 + |query.counts| && |results| == |query.counts|
            && forall i :: 0 <= i < |results| ==>
                 StandsFor(results[i].status, pdu[14 + i]) && results[i].payload == None
  {
    hide ResponseOf;
    StrictDecoderIsIncluded(query, pdu);
    WriteVerdict(query, pdu);
    hide StandsFor, Matches;
    var results := MultiOf(query, pdu).value;
    StrictHasNoPayload(query, pdu);
    hide MultiOf;
    forall i | 0 <= i < |results| ensures StandsFor(results[i].status, pdu[14 + i]) {
      assert StatusesOf(results)[i] == results[i].status;
    }
  }

  lemma StrictHasNoPayload(query: Query, pdu: seq<byte>)
    requires query.write && MultiOf(query, pdu).Some?
    ensures var results := MultiOf(query, pdu).value;
            |results| == |query.counts| && forall i :: 0 <= i < |results| ==> results[i].payload == None
  {
    hide Sections, StatusOf;
  }

  /** A read item the strict decoder returns: its status, and the octets of a success. */
  predicate ReadStands(result: Multi.Decoded, pdu: seq<byte>, at: nat, count: u16) {
    && at + 4 <= |pdu| && StandsFor(result.status, pdu[at])
    && (pdu[at] == 255 ==>
          at + 4 + count <= |pdu| && result.payload == Some(pdu[at + 4..at + 4 + count]))
    && (pdu[at] != 255 ==> result.payload == None)
  }

  /** What the strict decoder makes of the records of a read: every status, and the octets
      of every successful one. */
  lemma StrictReads(query: Query, pdu: seq<byte>) returns (starts: seq<nat>)
    requires |query.counts| < 256 && !query.write && MultiOf(query, pdu).Some?
    ensures RecordsSpan(pdu, query.counts, starts)
    ensures var results := MultiOf(query, pdu).value;
            && |results| == |query.counts|
            && forall i :: 0 <= i < |results| ==> ReadStands(results[i], pdu, starts[i], query.counts[i])
  {
    hide MultiOf, ResponseOf, ReadsOf, RecordSpans, ContentSpans, ReadStands, Matches, ItemAnswers, DecodedItem, Be16;
    StrictItems(query, pdu);
    starts := ParsedSpans(query.counts, pdu, 0, 0);
    var items, results := ReadsOf(query.counts, pdu[14..], 0, 0).value, MultiOf(query, pdu).value;
    forall i | 0 <= i < |results| ensures ReadStands(results[i], pdu, starts[i], query.counts[i]) {
      ItemStands(query.counts, pdu, i, items);
      StandsAt(items[i], pdu, starts[i], query.counts[i]);
    }
  }

  lemma StrictItems(query: Query, pdu: seq<byte>)
    requires |query.counts| < 256 && !query.write && MultiOf(query, pdu).Some?
    ensures |pdu| >= 14 && ReadsOf(query.counts, pdu[14..], 0, 0).Some?
    ensures MultiOf(query, pdu).value == DecodedItems(ReadsOf(query.counts, pdu[14..], 0, 0).value)
  {
    StrictDecoderIsIncluded(query, pdu);
    ReadNeedsData(query, pdu);
    hide ResponseOf, ReadsOf, DecodedItems, Signature;
  }

  lemma ItemStands(counts: seq<u16>, pdu: seq<byte>, i: nat, items: seq<Item>)
    requires |pdu| >= 14 && ReadsOf(counts, pdu[14..], 0, 0) == Some(items) && i < |counts|
    ensures |items| == |counts| && ItemAnswers(items[i], counts[i])
  {
    ParseItemsSound(|counts|, Answering(counts), pdu[14..], 0, 0);
    AllCheckAt(Answering(counts), 0, items, i);
  }

  lemma StandsAt(item: Item, pdu: seq<byte>, at: nat, count: u16)
    requires ContentSpans(pdu, at, item) && ItemAnswers(item, count)
    ensures ReadStands(DecodedItem(item), pdu, at, count)
  {
  }
}
