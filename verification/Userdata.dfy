/** The two USER_DATA fragment oracles: the bounded assembler of the corpus oracle, and
    the management decoder with its continuation loop. */
module Userdata {
  import opened Bytes
  import opened Wire
  import Multi

  // --- the bounded assembler ---

  datatype Fragment = Fragment(more: bool, payload: seq<byte>)

  /** What every fragment of one conversation must carry. */
  datatype Expected = Expected(reference: u16, group: byte, subfunction: byte)

  /** `0x80 | group`. */
  function ResponseGroup(group: byte): byte {
    if group < 0x80 then group + 0x80 else group
  }

  function FragmentOf(pdu: seq<byte>, e: Expected): Option<Fragment> {
    match Multi.Sections(pdu, 7, e.reference)
    case None => None
    case Some((parameters, data)) =>
      if |parameters| != 12 || parameters[..5] != [0, 1, 0x12, 8, 0x12] || parameters[5] != ResponseGroup(e.group)
         || parameters[6] != e.subfunction || parameters[9] !in [0, 1] || parameters[10..] != [0, 0] then None
      else if |data| < 4 || data[..2] != [0xff, 9] || |data| != 4 + Be16(data, 2) then None
      else Some(Fragment(parameters[9] == 1, data[4..]))
  }

  /** Every fragment is valid. */
  predicate AllFragments(pdus: seq<seq<byte>>, e: Expected) {
    forall i :: 0 <= i < |pdus| ==> FragmentOf(pdus[i], e).Some?
  }

  function Joined(pdus: seq<seq<byte>>, e: Expected): seq<byte> {
    if pdus == [] then []
    else
      var last := FragmentOf(pdus[|pdus| - 1], e);
      Joined(pdus[..|pdus| - 1], e) + (if last.Some? then last.value.payload else [])
  }

  /** Whether fragment `i` announces another one. */
  predicate Continues(pdus: seq<seq<byte>>, e: Expected, i: nat)
    requires i < |pdus|
  {
    FragmentOf(pdus[i], e).Some? && FragmentOf(pdus[i], e).value.more
  }

  /** A complete conversation: every fragment valid, exactly the last clears the more
      flag, and both bounds hold. */
  predicate Complete(pdus: seq<seq<byte>>, e: Expected, maximumFragments: int, maximumBytes: int) {
    && AllFragments(pdus, e)
    && 0 < |pdus| <= maximumFragments
    && (forall i :: 0 <= i < |pdus| ==> (Continues(pdus, e, i) <==> i + 1 < |pdus|))
    && |Joined(pdus, e)| <= maximumBytes
  }

  lemma {:induction false} JoinedGrows(pdus: seq<seq<byte>>, e: Expected, n: nat)
    requires n <= |pdus|
    ensures |Joined(pdus[..n], e)| <= |Joined(pdus, e)|
    decreases |pdus|
  {
    if n < |pdus| {
      assert pdus[..|pdus| - 1][..n] == pdus[..n];
      JoinedGrows(pdus[..|pdus| - 1], e, n);
    } else {
      assert pdus[..n] == pdus;
    }
  }

  lemma JoinedStep(pdus: seq<seq<byte>>, e: Expected, n: nat)
    requires n < |pdus| && FragmentOf(pdus[n], e).Some?
    ensures Joined(pdus[..n + 1], e) == Joined(pdus[..n], e) + FragmentOf(pdus[n], e).value.payload
  {
    assert pdus[..n + 1][..n] == pdus[..n];
  }

  method DecodeFragment(pdu: seq<byte>, e: Expected) returns (fragment: Option<Fragment>)
    ensures fragment == FragmentOf(pdu, e)
  {
    var split := Multi.Sections(pdu, 7, e.reference);
    if split.None? {
      return None;
    }
    var (parameters, data) := split.value;
    if |parameters| != 12 || parameters[..5] != [0, 1, 0x12, 8, 0x12] || parameters[5] != ResponseGroup(e.group)
       || parameters[6] != e.subfunction || parameters[9] !in [0, 1] || parameters[10..] != [0, 0] {
      return None;
    }
    if |data| < 4 || data[..2] != [0xff, 9] || |data| != 4 + Be16(data, 2) {
      return None;
    }
    return Some(Fragment(parameters[9] == 1, data[4..]));
  }

  /** Accepts exactly the complete conversations, and returns their payloads in order. */
  method DecodeConversation(pdus: seq<seq<byte>>, e: Expected, maximumFragments: int, maximumBytes: int)
    returns (payload: Option<seq<byte>>)
    ensures payload.Some? <==> Complete(pdus, e, maximumFragments, maximumBytes)
    ensures payload.Some? ==> payload.value == Joined(pdus, e)
  {
    hide FragmentOf;
    var accumulated: seq<byte> := [];
    var complete := false;
    assert pdus[..0] == [];
    for n := 0 to |pdus|
      invariant n <= 0 || n <= maximumFragments
      invariant forall i :: 0 <= i < n ==> FragmentOf(pdus[i], e).Some?
      invariant forall i :: 0 <= i < n - 1 ==> Continues(pdus, e, i)
      invariant n > 0 ==> (complete <==> !Continues(pdus, e, n - 1))
      invariant n > 0 && !complete ==> n < maximumFragments
      invariant n == 0 ==> !complete
      invariant accumulated == Joined(pdus[..n], e) && (n > 0 ==> |accumulated| <= maximumBytes)
    {
      var count := n + 1;
      if complete || count > maximumFragments {
        return None;
      }
      var fragment := DecodeFragment(pdus[n], e);
      if fragment.None? {
        return None;
      }
      JoinedStep(pdus, e, n);
      var more := fragment.value.more;
      assert more <==> Continues(pdus, e, n);
      if more && count == maximumFragments {
        return None;
      }
      if |accumulated| + |fragment.value.payload| > maximumBytes {
        JoinedGrows(pdus, e, n + 1);
        return None;
      }
      accumulated := accumulated + fragment.value.payload;
      complete := !more;
    }
    assert pdus[..|pdus|] == pdus;
    if !complete {
      return None;
    }
    return Some(accumulated);
  }

  // --- the management decoder ---

  datatype Category = Protocol | PlcRejected

  datatype Verdict =
    | Refused(category: Category)
    | Decoded(payload: seq<byte>, sequence: byte, unit: byte, more: bool, code: byte, transport: byte)

  /** Groups whose replies may be an empty acknowledgement. */
  predicate AllowsNull(group: byte, subfunction: byte) {
    (group, subfunction) in [(7, 2), (5, 1), (5, 2)]
  }

  function Decode(pdu: seq<byte>, e: Expected): Verdict {
    if |pdu| < 10 then Refused(Protocol)
    else
      var dataSize := Be16(pdu, 8) as int;
      if pdu[0] != 0x32 || pdu[1] != 7 || Be16(pdu, 4) != e.reference || Be16(pdu, 6) != 12
         || |pdu| != 22 + dataSize then Refused(Protocol)
      else
        var parameters := pdu[10..22];
        if parameters[..5] != [0, 1, 0x12, 8, 0x12] || parameters[5] / 16 != 8 || parameters[5] % 16 != e.group
           || parameters[6] != e.subfunction || parameters[9] !in [0, 1] then Refused(Protocol)
        else if Be16(parameters, 10) != 0 then Refused(PlcRejected)
        else
          var data := pdu[22..];
          if |data| < 4 then Refused(Protocol)
          else
            var code, transport, length := data[0], data[1], Be16(data, 2) as int;
            var nullAck := code == 10 && AllowsNull(e.group, e.subfunction);
            if code != 255 && !nullAck then Refused(PlcRejected)
            else if nullAck && (transport != 0 || length != 0 || parameters[9] != 0) then Refused(Protocol)
            else if !nullAck && transport != 9 then Refused(Protocol)
            else if |data| != 4 + length then Refused(Protocol)
            else Decoded(data[4..], parameters[7], parameters[8], parameters[9] == 1, code, transport)
  }

  /** The replies a device may give: data in transport 9, or an empty acknowledgement. */
  predicate Replies(e: Expected, v: Verdict) {
    && v.Decoded? && e.group < 16 && |v.payload| + 4 < 0x1_0000
    && (|| (v.code == 255 && v.transport == 9)
        || (v.code == 10 && v.transport == 0 && AllowsNull(e.group, e.subfunction) && v.payload == [] && !v.more))
  }

  function ReplyParameters(e: Expected, v: Verdict): (s: seq<byte>)
    requires Replies(e, v)
    ensures |s| == 12
  {
    [0, 1, 0x12, 8, 0x12, 0x80 + e.group, e.subfunction, v.sequence, v.unit, if v.more then 1 else 0, 0, 0]
  }

  function ReplyPdu(e: Expected, reserved: u16, v: Verdict): seq<byte>
    requires Replies(e, v)
  {
    [0x32, 7] + U16(reserved) + U16(e.reference) + U16(12) + U16(4 + |v.payload|)
    + ReplyParameters(e, v) + ([v.code, v.transport] + U16(|v.payload|)) + v.payload
  }

  lemma ReplyFields(e: Expected, reserved: u16, v: Verdict)
    requires Replies(e, v)
    ensures var pdu := ReplyPdu(e, reserved, v);
            && |pdu| == 26 + |v.payload| && pdu[0] == 0x32 && pdu[1] == 7
            && Be16(pdu, 2) == reserved && Be16(pdu, 4) == e.reference
            && Be16(pdu, 6) == 12 && Be16(pdu, 8) == 4 + |v.payload|
            && pdu[10..22] == ReplyParameters(e, v)
            && pdu[22] == v.code && pdu[23] == v.transport && Be16(pdu, 24) == |v.payload| && pdu[26..] == v.payload
  {
    hide ReplyParameters, U16, Be16;
    var pdu := ReplyPdu(e, reserved, v);
    assert pdu[2..4] == U16(reserved) && pdu[4..6] == U16(e.reference);
    assert pdu[6..8] == U16(12) && pdu[8..10] == U16(4 + |v.payload|) && pdu[24..26] == U16(|v.payload|);
    Field(pdu, 2, reserved);
    Field(pdu, 4, e.reference);
    Field(pdu, 6, 12);
    Field(pdu, 8, 4 + |v.payload|);
    Field(pdu, 24, |v.payload|);
  }

  /** Every reply decodes to what it carries, whatever its reserved field. */
  lemma RepliesDecode(e: Expected, reserved: u16, v: Verdict)
    requires Replies(e, v)
    ensures Decode(ReplyPdu(e, reserved, v), e) == v
  {
    ReplyFields(e, reserved, v);
    var parameters := ReplyParameters(e, v);
    assert parameters[..5] == [0, 1, 0x12, 8, 0x12] && Be16(parameters, 10) == 0;
    var pdu := ReplyPdu(e, reserved, v);
    hide ReplyPdu, Be16;
    assert pdu[22..][4..] == pdu[26..];
    DataHead(pdu);
  }

  /** The head of the data section. */
  lemma DataHead(pdu: seq<byte>)
    requires |pdu| >= 26
    ensures pdu[22..][0] == pdu[22] && pdu[22..][1] == pdu[23] && Be16(pdu[22..], 2) == Be16(pdu, 24)
  {
  }

  /** Nothing else is accepted. */
  lemma DecodedAreReplies(pdu: seq<byte>, e: Expected)
    requires Decode(pdu, e).Decoded?
    ensures Replies(e, Decode(pdu, e)) && pdu == ReplyPdu(e, Be16(pdu, 2), Decode(pdu, e))
  {
    DataHead(pdu);
    ParametersAreReply(pdu, e);
    HeadIsReply(pdu, e);
    var v := Decode(pdu, e);
    hide Be16, U16, Decode, ReplyParameters;
    assert pdu[22..26] == [v.code, v.transport] + U16(|v.payload|);
    assert pdu == pdu[..10] + pdu[10..22] + pdu[22..26] + pdu[26..];
  }

  lemma ParametersAreReply(pdu: seq<byte>, e: Expected)
    requires Decode(pdu, e).Decoded?
    ensures Replies(e, Decode(pdu, e)) && |pdu| >= 26 && pdu[10..22] == ReplyParameters(e, Decode(pdu, e))
  {
    var parameters := pdu[10..22];
    assert parameters == parameters[..5] + parameters[5..10] + parameters[10..];
  }

  lemma HeadIsReply(pdu: seq<byte>, e: Expected)
    requires Decode(pdu, e).Decoded?
    ensures var v := Decode(pdu, e);
            && |pdu| >= 26 && |v.payload| + 4 < 0x1_0000 && pdu[26..] == v.payload
            && pdu[..10] == [0x32, 7] + U16(Be16(pdu, 2)) + U16(e.reference) + U16(12) + U16(4 + |v.payload|)
            && pdu[22..26] == [v.code, v.transport] + U16(|v.payload|)
  {
    U16Inverse(pdu, 2);
    U16Inverse(pdu, 4);
    U16Inverse(pdu, 6);
    U16Inverse(pdu, 8);
    U16Inverse(pdu, 24);
    DataHead(pdu);
    hide Be16, U16;
    assert pdu[22..][4..] == pdu[26..];
    assert pdu[..10] == pdu[..2] + pdu[2..4] + pdu[4..6] + pdu[6..8] + pdu[8..10];
    assert pdu[22..26] == [pdu[22], pdu[23]] + pdu[24..26];
  }

  /** The two decoders agree exactly: the assembler takes what the management decoder
      takes with a success code and a clear reserved field, for every four-bit group. */
  lemma DecodersAgree(pdu: seq<byte>, e: Expected)
    requires e.group < 16
    ensures FragmentOf(pdu, e).Some? <==>
            Decode(pdu, e).Decoded? && Decode(pdu, e).code == 255 && Be16(pdu, 2) == 0
    ensures FragmentOf(pdu, e).Some? ==>
            var v := Decode(pdu, e);
            FragmentOf(pdu, e).value == Fragment(v.more, v.payload)
  {
    if FragmentOf(pdu, e).Some? {
      FragmentsDecode(pdu, e);
    }
    if Decode(pdu, e).Decoded? && Decode(pdu, e).code == 255 && Be16(pdu, 2) == 0 {
      DecodedAreReplies(pdu, e);
      RepliesAreFragments(pdu, e, Decode(pdu, e));
    }
  }

  /** A final fragment without payload. */
  function EmptyFragment(e: Expected): seq<byte> {
    Packet(7, e.reference, [0, 1, 0x12, 8, 0x12, ResponseGroup(e.group), e.subfunction, 0, 0, 0, 0, 0], [0xff, 9, 0, 0])
  }

  lemma EmptyFragmentIsTaken(e: Expected)
    ensures FragmentOf(EmptyFragment(e), e) == Some(Fragment(false, []))
  {
    var parameters: seq<byte> :=
      [0, 1, 0x12, 8, 0x12, ResponseGroup(e.group), e.subfunction, 0, 0, 0, 0, 0];
    Multi.SectionsOfPacket(7, e.reference, parameters, [0xff, 9, 0, 0]);
    hide Packet;
    assert parameters[..5] == [0, 1, 0x12, 8, 0x12] && parameters[10..] == [0, 0];
    var data: seq<byte> := [0xff, 9, 0, 0];
    assert data[..2] == [0xff, 9] && data[4..] == [];
  }

  /** Beyond four bits the decoders part: the management decoder takes nothing, although
      the assembler still takes fragments. They agree on what is taken exactly below. */
  lemma FragmentsAreDecodedExactly(e: Expected)
    ensures e.group < 16 <==>
            forall pdu :: FragmentOf(pdu, e).Some? ==> Decode(pdu, e).Decoded?
  {
    hide FragmentOf, Decode;
    if e.group < 16 {
      forall pdu | FragmentOf(pdu, e).Some? ensures Decode(pdu, e).Decoded? {
        DecodersAgree(pdu, e);
      }
    } else {
      EmptyFragmentIsTaken(e);
      WideGroupIsRefused(EmptyFragment(e), e);
    }
  }

  lemma WideGroupIsRefused(pdu: seq<byte>, e: Expected)
    requires e.group >= 16
    ensures Decode(pdu, e).Refused?
  {
  }

  lemma FragmentsDecode(pdu: seq<byte>, e: Expected)
    requires e.group < 16 && FragmentOf(pdu, e).Some?
    ensures var f := FragmentOf(pdu, e).value;
            && |pdu| >= 26 && Be16(pdu, 2) == 0
            && Decode(pdu, e) == Decoded(f.payload, pdu[17], pdu[18], f.more, 255, 9)
  {
    var (parameters, data) := Multi.Sections(pdu, 7, e.reference).value;
    assert pdu[..4] == [0x32, 7, 0, 0];
    assert pdu[0] == pdu[..4][0] && pdu[1] == pdu[..4][1] && pdu[2] == pdu[..4][2] && pdu[3] == pdu[..4][3];
    assert parameters == pdu[10..22] && data == pdu[22..];
    assert parameters[10] == parameters[10..][0] && parameters[11] == parameters[10..][1];
    assert data[0] == data[..2][0] && data[1] == data[..2][1];
  }

  lemma RepliesAreFragments(pdu: seq<byte>, e: Expected, v: Verdict)
    requires Replies(e, v) && v.code == 255 && pdu == ReplyPdu(e, 0, v)
    ensures FragmentOf(pdu, e) == Some(Fragment(v.more, v.payload))
  {
    assert pdu[..4] == [0x32, 7, 0, 0];
    assert pdu[10..22] == ReplyParameters(e, v);
    assert pdu[22..] == [v.code, v.transport] + U16(|v.payload|) + v.payload;
    assert pdu[22..][4..] == v.payload;
    assert ReplyParameters(e, v)[..5] == [0, 1, 0x12, 8, 0x12];
    assert ReplyParameters(e, v)[10..] == [0, 0];
  }

  // --- the continuation loop ---

  datatype Profile = Profile(group: byte, subfunction: byte)

  datatype Exchange = Exchange(reference: u16, requestPdu: seq<byte>, responsePdu: seq<byte>)

  datatype Ending = Failed(category: Category, failedStep: nat) | Assembled(payload: seq<byte>)

  const MAXIMUM_PAYLOAD: nat := 16 * 1024 * 1024

  /** The first request of a conversation, or one that echoes a continuation token. */
  function RequestPdu(reference: u16, p: Profile, sequence: Option<byte>): seq<byte>
    requires p.group < 16
  {
    var parameters: seq<byte> :=
      match sequence
      case None => [0, 1, 0x12, 4, 0x11, 0x40 + p.group, p.subfunction, 0]
      case Some(token) => [0, 1, 0x12, 8, 0x12, 0x40 + p.group, p.subfunction, token, 0, 0, 0, 0];
    var data: seq<byte> :=
      if sequence.Some? then [10, 0, 0, 0]
      else if p.group == 4 then [0xff, 9, 0, 4, 4, 0x24, 0, 0]
      else [0xff, 9, 0, 2, 0x30, 0x41];
    [0x32, 7, 0, 0] + U16(reference) + U16(|parameters|) + U16(|data|) + parameters + data
  }

  /** A request's bytes determine its reference, its profile and the token it echoes. */
  lemma RequestPduInjective(
    reference: u16, p: Profile, sequence: Option<byte>, reference': u16, p': Profile, sequence': Option<byte>)
    requires p.group < 16 && p'.group < 16
    requires RequestPdu(reference, p, sequence) == RequestPdu(reference', p', sequence')
    ensures reference == reference' && p == p' && sequence == sequence'
  {
    RequestFields(reference, p, sequence);
    RequestFields(reference', p', sequence');
  }

  lemma RequestFields(reference: u16, p: Profile, sequence: Option<byte>)
    requires p.group < 16
    ensures var pdu := RequestPdu(reference, p, sequence);
            && |pdu| >= 18 && Be16(pdu, 4) == reference
            && pdu[13] == (if sequence.Some? then 8 else 4)
            && pdu[15] == 0x40 + p.group && pdu[16] == p.subfunction
            && (sequence.Some? ==> pdu[17] == sequence.value)
  {
    var pdu := RequestPdu(reference, p, sequence);
    assert pdu[4..6] == U16(reference);
    assert pdu[4] == pdu[4..6][0] && pdu[5] == pdu[4..6][1];
  }

  function Answer(p: Profile, steps: seq<Exchange>, i: nat): Verdict
    requires i < |steps|
  {
    Decode(steps[i].responsePdu, Expected(steps[i].reference, p.group, p.subfunction))
  }

  /** Step `i` decodes, and keeps the data unit of the first step. */
  predicate Fits(p: Profile, steps: seq<Exchange>, i: nat)
    requires i < |steps|
  {
    Answer(p, steps, i).Decoded? && Answer(p, steps, 0).Decoded? && Answer(p, steps, i).unit == Answer(p, steps, 0).unit
  }

  predicate Good(p: Profile, steps: seq<Exchange>, n: nat)
    requires n <= |steps|
  {
    n == 0 || (Good(p, steps, n - 1) && Fits(p, steps, n - 1))
  }

  lemma {:induction false} GoodMeans(p: Profile, steps: seq<Exchange>, n: nat)
    requires n <= |steps|
    ensures Good(p, steps, n) <==> forall i :: 0 <= i < n ==> Fits(p, steps, i)
  {
    hide Fits;
    if n == 0 {
    } else {
      GoodMeans(p, steps, n - 1);
    }
  }

  /** The token step `i` must echo: that of the last good step before it. */
  function Token(p: Profile, steps: seq<Exchange>, i: nat): Option<byte>
    requires i <= |steps|
  {
    if i == 0 then None
    else if Good(p, steps, i) then Some(Answer(p, steps, i - 1).sequence)
    else Token(p, steps, i - 1)
  }

  function Payload(p: Profile, steps: seq<Exchange>, n: nat): seq<byte>
    requires n <= |steps|
  {
    if n == 0 then []
    else
      var last := Answer(p, steps, n - 1);
      Payload(p, steps, n - 1) + (if last.Decoded? then last.payload else [])
  }

  predicate Echoes(p: Profile, steps: seq<Exchange>, i: nat)
    requires i < |steps| && p.group < 16
  {
    steps[i].requestPdu == RequestPdu(steps[i].reference, p, Token(p, steps, i))
  }

  /** Until a failure, exactly the last step completes, and the bound holds. */
  predicate Paced(p: Profile, steps: seq<Exchange>, i: nat)
    requires i < |steps|
  {
    Good(p, steps, i + 1) ==>
      |Payload(p, steps, i + 1)| <= MAXIMUM_PAYLOAD && (Answer(p, steps, i).more <==> i + 1 < |steps|)
  }

  /** The fixtures the loop does not refuse outright. */
  predicate Consistent(p: Profile, steps: seq<Exchange>) {
    && (p.group, p.subfunction) in [(4, 1), (3, 2)] && 1 <= |steps| <= 256
    && forall i :: 0 <= i < |steps| ==> Echoes(p, steps, i) && Paced(p, steps, i)
  }

  /** Step `k` is the first that is refused or changes the data unit. */
  predicate FailsFirst(p: Profile, steps: seq<Exchange>, k: nat, category: Category)
    requires k < |steps|
  {
    && Good(p, steps, k) && !Fits(p, steps, k)
    && category == (match Answer(p, steps, k) case Refused(c) => c case Decoded(_, _, _, _, _, _) => Protocol)
  }

  /** A conversation ends at its first failing step, or with all payloads in order. */
  predicate EndsAs(p: Profile, steps: seq<Exchange>, ending: Ending) {
    match ending
    case Failed(category, k) => k < |steps| && FailsFirst(p, steps, k, category)
    case Assembled(payload) => Good(p, steps, |steps|) && payload == Payload(p, steps, |steps|)
  }

  lemma FirstToken(p: Profile, steps: seq<Exchange>)
    ensures Token(p, steps, 0) == None
  {
  }

  lemma TokenAfterGood(p: Profile, steps: seq<Exchange>, i: nat)
    requires i < |steps|
    ensures Good(p, steps, i) && Fits(p, steps, i) ==>
              Good(p, steps, i + 1) && Token(p, steps, i + 1) == Some(Answer(p, steps, i).sequence)
    ensures !(Good(p, steps, i) && Fits(p, steps, i)) ==>
              !Good(p, steps, i + 1) && Token(p, steps, i + 1) == Token(p, steps, i)
  {
  }

  /** The continuation conversation: none when the fixture is inconsistent; otherwise the
      first failing step, or the payloads in order when there is none. */
  method Continue(p: Profile, steps: seq<Exchange>) returns (ending: Option<Ending>)
    ensures ending.Some? <==> Consistent(p, steps)
    ensures ending.Some? ==> EndsAs(p, steps, ending.value)
  {
    hide Decode, RequestPdu, Token;
    if (p.group, p.subfunction) !in [(4, 1), (3, 2)] || |steps| < 1 || |steps| > 256 {
      return None;
    }
    var payload: seq<byte> := [];
    var unit: Option<byte>, sequence: Option<byte>, failure: Option<Ending> := None, None, None;
    FirstToken(p, steps);
    for index := 0 to |steps|
      invariant sequence == Token(p, steps, index)
      invariant forall i :: 0 <= i < index ==> Echoes(p, steps, i) && Paced(p, steps, i)
      invariant failure.None? <==> Good(p, steps, index)
      invariant failure.None? ==>
                  && payload == Payload(p, steps, index)
                  && (if index == 0 then unit == None
                      else Answer(p, steps, 0).Decoded? && unit == Some(Answer(p, steps, 0).unit))
      invariant failure.Some? ==>
                  && failure.value.Failed? && failure.value.failedStep < index
                  && FailsFirst(p, steps, failure.value.failedStep, failure.value.category)
    {
      var step := steps[index];
      TokenAfterGood(p, steps, index);
      if step.requestPdu != RequestPdu(step.reference, p, sequence) {
        assert !Echoes(p, steps, index);
        return None;
      }
      var decoded := Decode(step.responsePdu, Expected(step.reference, p.group, p.subfunction));
      if failure.Some? {
        continue;
      }
      if decoded.Refused? {
        failure := Some(Failed(decoded.category, index));
        continue;
      }
      if unit.Some? && unit.value != decoded.unit {
        failure := Some(Failed(Protocol, index));
        continue;
      }
      unit, sequence := Some(decoded.unit), Some(decoded.sequence);
      payload := payload + decoded.payload;
      if |payload| > MAXIMUM_PAYLOAD || decoded.more != (index + 1 < |steps|) {
        assert !Paced(p, steps, index);
        return None;
      }
    }
    ending := if failure.Some? then failure else Some(Assembled(payload));
  }

  function Responses(steps: seq<Exchange>): (pdus: seq<seq<byte>>)
    ensures |pdus| == |steps| && forall i :: 0 <= i < |pdus| ==> pdus[i] == steps[i].responsePdu
  {
    seq(|steps|, i requires 0 <= i < |steps| => steps[i].responsePdu)
  }

  lemma StepAgrees(
    p: Profile, steps: seq<Exchange>, e: Expected, maximumFragments: int, maximumBytes: int, i: nat)
    requires i < |steps| && p.group < 16 && e == Expected(e.reference, p.group, p.subfunction)
    requires forall k :: 0 <= k < |steps| ==> steps[k].reference == e.reference
    requires maximumBytes <= MAXIMUM_PAYLOAD && Complete(Responses(steps), e, maximumFragments, maximumBytes)
    ensures Answer(p, steps, i).Decoded? && Paced(p, steps, i)
  {
    hide Decode, FragmentOf, Joined, Payload, Good;
    var pdus := Responses(steps);
    DecodersAgree(pdus[i], e);
    PayloadIsJoined(p, steps, e, i + 1);
    JoinedGrows(pdus, e, i + 1);
    assert Continues(pdus, e, i) <==> i + 1 < |steps|;
  }

  /** The two assemblers agree on a whole conversation: what the bounded assembler
      accepts, the continuation loop paces and joins alike, step by step. */
  lemma AssemblersAgree(
    p: Profile, steps: seq<Exchange>, reference: u16, maximumFragments: int, maximumBytes: int)
    requires p.group < 16 && forall i :: 0 <= i < |steps| ==> steps[i].reference == reference
    requires maximumBytes <= MAXIMUM_PAYLOAD
    requires Complete(Responses(steps), Expected(reference, p.group, p.subfunction), maximumFragments, maximumBytes)
    ensures Payload(p, steps, |steps|) == Joined(Responses(steps), Expected(reference, p.group, p.subfunction))
    ensures forall i :: 0 <= i < |steps| ==> Answer(p, steps, i).Decoded? && Paced(p, steps, i)
    ensures Good(p, steps, |steps|) <==>
            forall i :: 0 <= i < |steps| ==> Answer(p, steps, i).unit == Answer(p, steps, 0).unit
  {
    hide Answer, Joined, Payload, Good, Paced;
    var e, pdus := Expected(reference, p.group, p.subfunction), Responses(steps);
    forall i | 0 <= i < |steps|
      ensures Answer(p, steps, i).Decoded? && Paced(p, steps, i)
    {
      StepAgrees(p, steps, e, maximumFragments, maximumBytes, i);
    }
    PayloadIsJoined(p, steps, e, |steps|);
    assert pdus[..|steps|] == pdus;
    GoodMeans(p, steps, |steps|);
    assert forall i :: 0 <= i < |steps| ==>
             (Fits(p, steps, i) <==> Answer(p, steps, i).unit == Answer(p, steps, 0).unit);
  }

  lemma {:induction false} PayloadIsJoined(p: Profile, steps: seq<Exchange>, e: Expected, n: nat)
    requires n <= |steps| && p.group < 16 && e == Expected(e.reference, p.group, p.subfunction)
    requires forall i :: 0 <= i < |steps| ==> steps[i].reference == e.reference
    requires AllFragments(Responses(steps), e)
    ensures Payload(p, steps, n) == Joined(Responses(steps)[..n], e)
  {
    hide Decode, FragmentOf;
    if n > 0 {
      PayloadIsJoined(p, steps, e, n - 1);
      DecodersAgree(Responses(steps)[n - 1], e);
      JoinedStep(Responses(steps), e, n - 1);
    } else {
      assert Responses(steps)[..0] == [];
    }
  }
}
