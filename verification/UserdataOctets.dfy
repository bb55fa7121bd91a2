/** The octets of USER_DATA replies, fragments and requests, and what a continuation
    conversation must have exchanged. */
module UserdataOctets {
  import opened Bytes
  import opened Multi
  import opened Userdata

  /** Replies that may be an empty acknowledgement with code 10. */
  predicate MayBeEmpty(group: byte, subfunction: byte) {
    (group == 7 && subfunction == 2) || (group == 5 && (subfunction == 1 || subfunction == 2))
  }

  /** A USER_DATA reply to this request: header, twelve parameter octets that echo the group
      and the subfunction, and a more flag at octet 19. */
  predicate RepliesTo(pdu: seq<byte>, e: Userdata.Expected) {
    && |pdu| >= 22 && pdu[0] == 0x32 && pdu[1] == 7 && Be16(pdu, 4) == e.reference
    && Be16(pdu, 6) == 12 && |pdu| == 22 + Be16(pdu, 8)
    && pdu[10] == 0 && pdu[11] == 1 && pdu[12] == 0x12 && pdu[13] == 8 && pdu[14] == 0x12
    && e.group < 16 && pdu[15] == 0x80 + e.group && pdu[16] == e.subfunction && (pdu[19] == 0 || pdu[19] == 1)
  }

  /** Error octets at 20, or a return code at 22 that the request does not allow. */
  predicate PlcRefuses(pdu: seq<byte>, e: Userdata.Expected)
    requires |pdu| >= 22
  {
    || pdu[20] != 0 || pdu[21] != 0
    || (|pdu| >= 26 && pdu[22] != 255 && !(pdu[22] == 10 && MayBeEmpty(e.group, e.subfunction)))
  }

  /** Data of exactly its announced length in transport 9, or an empty final
      acknowledgement. */
  predicate CarriesData(pdu: seq<byte>, e: Userdata.Expected) {
    && |pdu| >= 26
    && (if pdu[22] == 255 then pdu[23] == 9 && |pdu| == 26 + Be16(pdu, 24)
        else pdu[23] == 0 && Be16(pdu, 24) == 0 && pdu[19] == 0 && |pdu| == 26)
  }

  lemma ParameterOctets(pdu: seq<byte>)
    requires |pdu| >= 22
    ensures var parameters := pdu[10..22];
            && (parameters[..5] == [0, 1, 0x12, 8, 0x12] <==>
                  pdu[10] == 0 && pdu[11] == 1 && pdu[12] == 0x12 && pdu[13] == 8 && pdu[14] == 0x12)
            && parameters[5] == pdu[15] && parameters[6] == pdu[16] && parameters[7] == pdu[17]
            && parameters[8] == pdu[18] && parameters[9] == pdu[19]
            && (Be16(parameters, 10) == 0 <==> pdu[20] == 0 && pdu[21] == 0)
            && (parameters[10..] == [0, 0] <==> pdu[20] == 0 && pdu[21] == 0)
  {
    var parameters := pdu[10..22];
    assert parameters[..5] == [pdu[10], pdu[11], pdu[12], pdu[13], pdu[14]];
    assert parameters[10..] == [pdu[20], pdu[21]];
  }

  lemma DataOctets(pdu: seq<byte>)
    requires |pdu| >= 26
    ensures var data := pdu[22..];
            && data[0] == pdu[22] && data[1] == pdu[23] && Be16(data, 2) == Be16(pdu, 24) && data[4..] == pdu[26..]
            && (data[..2] == [0xff, 9] <==> pdu[22] == 255 && pdu[23] == 9)
  {
    assert pdu[22..][..2] == [pdu[22], pdu[23]];
  }

  /** Every reply, octet by octet: refused for the PLC's reason, decoded into its fields, or
      refused as a protocol error. */
  lemma DecodeOctets(pdu: seq<byte>, e: Userdata.Expected)
    ensures Decode(pdu, e) ==
            if !RepliesTo(pdu, e) then Refused(Protocol)
            else if PlcRefuses(pdu, e) then Refused(PlcRejected)
            else if !CarriesData(pdu, e) then Refused(Protocol)
            else Userdata.Decoded(pdu[26..], pdu[17], pdu[18], pdu[19] == 1, pdu[22], pdu[23])
  {
    hide Be16;
    if |pdu| >= 22 {
      ParameterOctets(pdu);
    }
    if |pdu| >= 26 {
      DataOctets(pdu);
    }
  }

  /** Every fragment, octet by octet. */
  lemma FragmentOctets(pdu: seq<byte>, e: Userdata.Expected)
    ensures FragmentOf(pdu, e).Some? <==>
            && |pdu| >= 26 && pdu[0] == 0x32 && pdu[1] == 7 && pdu[2] == 0 && pdu[3] == 0
            && Be16(pdu, 4) == e.reference && Be16(pdu, 6) == 12 && |pdu| == 22 + Be16(pdu, 8)
            && pdu[10] == 0 && pdu[11] == 1 && pdu[12] == 0x12 && pdu[13] == 8 && pdu[14] == 0x12
            && pdu[15] == (if e.group < 0x80 then 0x80 + e.group else e.group) && pdu[16] == e.subfunction
            && (pdu[19] == 0 || pdu[19] == 1) && pdu[20] == 0 && pdu[21] == 0
            && pdu[22] == 0xff && pdu[23] == 9 && |pdu| == 26 + Be16(pdu, 24)
    ensures FragmentOf(pdu, e).Some? ==> FragmentOf(pdu, e).value == Fragment(pdu[19] == 1, pdu[26..])
  {
    hide Be16;
    if |pdu| >= 10 {
      FirstFour(pdu, 0x32, 7, 0, 0);
    }
    if |pdu| >= 22 {
      ParameterOctets(pdu);
    }
    if |pdu| >= 26 {
      DataOctets(pdu);
    }
  }

  lemma HeaderOctets(reference: u16, parameters: byte, data: byte)
    ensures [0x32, 7, 0, 0] + U16(reference) + U16(parameters) + U16(data) ==
            [0x32, 7, 0, 0, reference / 256, reference % 256, 0, parameters, 0, data]
  {
  }

  /** The request that starts a conversation, octet by octet: a directory of its profile. */
  lemma FirstOctets(reference: u16, p: Profile)
    requires p.group < 16
    ensures RequestPdu(reference, p, None) ==
            [0x32, 7, 0, 0, reference / 256, reference % 256, 0, 8, 0, if p.group == 4 then 8 else 6]
            + [0, 1, 0x12, 4, 0x11, 0x40 + p.group, p.subfunction, 0]
            + (if p.group == 4 then [0xff, 9, 0, 4, 4, 0x24, 0, 0] else [0xff, 9, 0, 2, 0x30, 0x41])
  {
    HeaderOctets(reference, 8, if p.group == 4 then 8 else 6);
    hide U16;
  }

  /** The request that continues one, octet by octet: it carries the token at octet 17. */
  lemma EchoOctets(reference: u16, p: Profile, token: byte)
    requires p.group < 16
    ensures RequestPdu(reference, p, Some(token)) ==
            [0x32, 7, 0, 0, reference / 256, reference % 256, 0, 12, 0, 4]
            + [0, 1, 0x12, 8, 0x12, 0x40 + p.group, p.subfunction, token, 0, 0, 0, 0] + [10, 0, 0, 0]
  {
    HeaderOctets(reference, 12, 4);
    hide U16;
  }

  lemma RequestMarks(reference: u16, p: Profile, sequence: Option<byte>)
    requires p.group < 16
    ensures var request := RequestPdu(reference, p, sequence);
            && |request| >= 18 && request[13] == (if sequence.Some? then 8 else 4)
            && (sequence.Some? ==> |request| == 26 && request[17] == sequence.value)
  {
    if sequence.Some? {
      EchoOctets(reference, p, sequence.value);
    } else {
      FirstOctets(reference, p);
    }
    hide RequestPdu;
  }

  // --- whole conversations ---

  /** Step `i` of a conversation that assembles: its request starts the conversation or
      echoes octet 17 of the reply before, its reply keeps the data unit at octet 18, and
      announces more, at octet 19, unless it is the last. */
  predicate Exchanged(p: Profile, steps: seq<Exchange>, i: nat)
    requires i < |steps|
  {
    var request, reply := steps[i].requestPdu, steps[i].responsePdu;
    && |reply| >= 26 && |steps[0].responsePdu| >= 26 && reply[22] == 255 && reply[18] == steps[0].responsePdu[18]
    && (reply[19] == 1 <==> i + 1 < |steps|)
    && (if i == 0 then |request| >= 18 && request[13] == 4
        else
          && |request| == 26 && request[13] == 8 && |steps[i - 1].responsePdu| >= 26
          && request[17] == steps[i - 1].responsePdu[17])
  }

  /** A conversation assembles only for the two supported profiles, in at most 256 steps that
      continue one another, and to at most sixteen megabytes. */
  lemma AssembledConversation(p: Profile, steps: seq<Exchange>)
    requires Consistent(p, steps) && Good(p, steps, |steps|)
    ensures (p.group == 4 && p.subfunction == 1) || (p.group == 3 && p.subfunction == 2)
    ensures 1 <= |steps| <= 256 && |Payload(p, steps, |steps|)| <= 16777216
    ensures forall i :: 0 <= i < |steps| ==> Exchanged(p, steps, i)
  {
    hide Decode, Payload, RequestPdu, Token, Answer;
    GoodMeans(p, steps, |steps|);
    assert Paced(p, steps, |steps| - 1);
    forall i | 0 <= i < |steps| ensures Exchanged(p, steps, i) {
      GoodPrefix(p, steps, i);
      GoodPrefix(p, steps, i + 1);
      ExchangedStep(p, steps, i);
    }
  }

  lemma {:induction false} GoodPrefix(p: Profile, steps: seq<Exchange>, n: nat)
    requires n <= |steps| && Good(p, steps, |steps|)
    ensures Good(p, steps, n)
  {
    hide Fits;
    GoodMeans(p, steps, |steps|);
    GoodMeans(p, steps, n);
  }

  lemma AnswerOctets(p: Profile, steps: seq<Exchange>, i: nat)
    requires i < |steps| && Answer(p, steps, i).Decoded? && !MayBeEmpty(p.group, p.subfunction)
    ensures var reply := steps[i].responsePdu;
            && |reply| >= 26 && reply[22] == 255
            && Answer(p, steps, i).sequence == reply[17] && Answer(p, steps, i).unit == reply[18]
            && (Answer(p, steps, i).more <==> reply[19] == 1)
  {
    DecodeOctets(steps[i].responsePdu, Userdata.Expected(steps[i].reference, p.group, p.subfunction));
    hide Decode;
  }

  lemma ExchangedStep(p: Profile, steps: seq<Exchange>, i: nat)
    requires i < |steps| && Consistent(p, steps) && Good(p, steps, i) && Good(p, steps, i + 1)
    ensures Exchanged(p, steps, i)
  {
    hide Answer, Payload, RequestPdu;
    assert Echoes(p, steps, i) && Paced(p, steps, i) && Fits(p, steps, i);
    AnswerOctets(p, steps, i);
    AnswerOctets(p, steps, 0);
    RequestMarks(steps[i].reference, p, Token(p, steps, i));
    if i > 0 {
      assert Fits(p, steps, i - 1);
      AnswerOctets(p, steps, i - 1);
    }
  }

  /** After the first failure, requests keep echoing the token before it. */
  lemma {:induction false} TokensFreeze(p: Profile, steps: seq<Exchange>, k: nat, i: nat)
    requires k < i <= |steps| && Good(p, steps, k) && !Fits(p, steps, k)
    ensures Token(p, steps, i) == Token(p, steps, k) && !Good(p, steps, i)
    decreases i
  {
    hide Fits;
    if i == k + 1 {
    } else {
      TokensFreeze(p, steps, k, i - 1);
    }
  }
}
