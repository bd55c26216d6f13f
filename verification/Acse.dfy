/** ACSE and the whole association: what either side recovers of the other's initiate PDU. */
module Acse {
  import opened Bytes
  import opened BerIntegers
  import opened Ber
  import opened MmsValues
  import opened MmsPdus
  import opened MmsPduRoundTrip
  import opened Layers
  import opened LayerStack

  // ---- ACSE ----

  lemma PrimTLV(buf: bytes, offset: nat, class_: int, constructed: bool, tag: nat, value: bytes)
    requires IsClass(class_) && tag < 31 && |value| < LIMIT
    requires At(buf, offset, Prim(LeadOctet(class_, constructed, tag), value))
    ensures TLVAt(buf, offset) == Ok((TLV(class_, constructed, tag, value),
                                      offset + |Prim(LeadOctet(class_, constructed, tag), value)|))
    ensures offset + |Prim(LeadOctet(class_, constructed, tag), value)| <= |buf|
  {
    hide At;
    hide TLVBytes;
    hide TLVAt;
    PrimIsTLV(class_, constructed, tag, value);
    TLVRoundTrip(buf, offset, class_, constructed, tag, value);
    AtInsideTLV(buf, offset, Prim(LeadOctet(class_, constructed, tag), value));
  }

  lemma AtInsideTLV(buf: bytes, offset: nat, s: bytes)
    requires At(buf, offset, s)
    ensures offset + |s| <= |buf|
  {
  }

  lemma IdIsPrim(contextID: byte)
    ensures Prim(0x02, [contextID]) == [0x02, 0x01, contextID]
  {
  }

  function External(mms: bytes): bytes {
    [0x02, 0x01, 0x03] + Prim(0xA0, mms)
  }

  lemma UserInfoSizes(mms: bytes)
    ensures UserInfo(mms) == Prim(0x28, External(mms))
    ensures |mms| < |External(mms)| < |UserInfo(mms)|
  {
    PrimLonger(0xA0, mms);
    PrimLonger(0x28, External(mms));
  }

  /** The server's reader of user information. */
  lemma MmsFound(mms: bytes)
    requires |UserInfo(mms)| < LIMIT
    ensures MmsIn(UserInfo(mms), 0) == Ok(mms)
  {
    hide At;
    hide Prim;
    hide TLVAt;
    var id, data := Prim(0x02, [0x03]), Prim(0xA0, mms);
    IdIsPrim(3);
    var inner := id + data;
    UserInfoSizes(mms);
    var ext := UserInfo(mms);
    AtWhole(ext);
    AtWhole(inner);
    AtConcat(inner, 0, id, data);
    PrimTLV(ext, 0, CLASS_UNIVERSAL, true, 8, inner);
    PrimTLV(inner, 0, CLASS_UNIVERSAL, false, 2, [0x03]);
    PrimTLV(inner, 3, CLASS_CONTEXT, true, 0, mms);
    assert MmsIn(inner, 0) == MmsIn(inner, 3) == Ok(mms);
  }

  /** A slice of a content that is all shown. */
  lemma CutSeen(s: View, off: nat, content: bytes)
    requires off + |content| <= |s.seen| && s.seen[off..off + |content|] == content
    ensures Cut(s, off, |content|).Ok? && Cut(s, off, |content|).value.seen == content
  {
    assert s.Memory()[off..off + |content|] == s.seen[off..off + |content|];
  }

  /** The client's. */
  lemma SingleFound(s: View, mms: bytes)
    requires |mms| < 0x100_0000 && s.seen == External(mms)
    ensures SingleFrom(s, 0).Ok? && SingleFrom(s, 0).value.seen == mms
  {
    hide At;
    hide Prim;
    hide ShortLengthAt;
    hide Cut;
    var id, data := Prim(0x02, [0x03]), Prim(0xA0, mms);
    IdIsPrim(3);
    AtWhole(s.seen);
    AtConcat(s.seen, 0, id, data);
    ElementRead(s.seen, 0, 0x02, [0x03], true);
    ElementRead(s.seen, 3, 0xA0, mms, true);
    CutSeen(s, |s.seen| - |mms|, mms);
    assert SingleFrom(s, 0) == SingleFrom(s, 3);
  }

  lemma UserInfoFound(s: View, mms: bytes)
    requires |UserInfo(mms)| < 0x100_0000 && s.seen == UserInfo(mms)
    ensures ParseUserInfo(s).Ok? && ParseUserInfo(s).value.seen == mms
  {
    hide Prim;
    hide ShortLengthAt;
    hide SingleFrom;
    hide Cut;
    UserInfoSizes(mms);
    var inner := External(mms);
    ElementWhole(0x28, inner, true);
    var k := |s.seen| - |inner|;
    assert s.seen[k..k + |inner|] == s.seen[k..];
    CutSeen(s, k, inner);
    SingleFound(Cut(s, k, |inner|).value, mms);
  }

  lemma AuthSkipped(body: bytes, pos: nat, password: Option<bytes>)
    requires |AuthFields(password)| < LIMIT && At(body, pos, AuthFields(password))
    ensures AarqFrom(body, pos) == AarqFrom(body, pos + |AuthFields(password)|)
  {
    hide At;
    hide Prim;
    hide TLVAt;
    if password.Some? {
      var pw := [0x80, |password.value| % 256] + password.value;
      var a, b, c := Prim(0x8A, [0x04, 0x80]), Prim(0x8B, [0x52, 0x03, 0x01]), Prim(0xAC, pw);
      AuthIsPrims();
      PrimLonger(0xAC, pw);
      assert AuthFields(password) == a + b + c;
      AtConcat(body, pos, a + b, c);
      AtConcat(body, pos, a, b);
      PrimTLV(body, pos, CLASS_CONTEXT, false, 10, [0x04, 0x80]);
      PrimTLV(body, pos + |a|, CLASS_CONTEXT, false, 11, [0x52, 0x03, 0x01]);
      PrimTLV(body, pos + |a| + |b|, CLASS_CONTEXT, true, 12, pw);
      assert AarqFrom(body, pos) == AarqFrom(body, pos + |a|);
      assert AarqFrom(body, pos + |a|) == AarqFrom(body, pos + |a| + |b|);
    }
  }

  lemma AuthIsPrims()
    ensures Prim(0x8A, [0x04, 0x80]) == [0x8A, 0x02, 0x04, 0x80]
    ensures Prim(0x8B, [0x52, 0x03, 0x01]) == [0x8B, 0x03, 0x52, 0x03, 0x01]
  {
  }

  /** The server finds the initiate PDU behind any authentication fields. */
  lemma AarqBodyRead(password: Option<bytes>, mms: bytes)
    requires |AarqBody(password, mms)| < LIMIT
    ensures AarqFrom(AarqBody(password, mms), 0) == Ok(mms)
  {
    hide At;
    hide Prim;
    hide TLVAt;
    hide AuthFields;
    hide MmsIn;
    hide UserInfo;
    hide CONTEXT_NAME;
    var name, auth, info := Prim(0xA1, CONTEXT_NAME), AuthFields(password), Prim(0xBE, UserInfo(mms));
    var body := AarqBody(password, mms);
    NameSize();
    PrimLonger(0xBE, UserInfo(mms));
    AtWhole(body);
    AtConcat(body, 0, name + auth, info);
    AtConcat(body, 0, name, auth);
    PrimTLV(body, 0, CLASS_CONTEXT, true, 1, CONTEXT_NAME);
    AuthSkipped(body, |name|, password);
    PrimTLV(body, |name| + |auth|, CLASS_CONTEXT, true, 30, UserInfo(mms));
    MmsFound(mms);
    assert AarqFrom(body, 0) == AarqFrom(body, |name|);
  }

  lemma NameSize()
    ensures |CONTEXT_NAME| == 7
  {
  }

  lemma AarqOpened(s: View)
    requires |s.seen| >= 2
    ensures ParseAARQ(s) == match PduBody(0x60, s)
                            case Ok(body) => AarqFrom(body, 0)
                            case Err => Err
                            case Panic => Panic
  {
    hide LengthAt;
    hide Cut;
    hide AarqFrom;
  }

  /** From a slice that shows the first `n` octets of an AARQ the server recovers the initiate PDU once it sees the length. */
  lemma AarqYields(password: Option<bytes>, mms: bytes, n: nat, beyond: bytes)
    requires |AarqBody(password, mms)| < LIMIT && n <= |BuildAARQ(password, mms)|
    ensures ParseAARQ(Part(BuildAARQ(password, mms), n, beyond))
         == if n < |BuildAARQ(password, mms)| - |AarqBody(password, mms)| then Err else Ok(mms)
  {
    hide AarqBody;
    hide Prim;
    hide PduBody;
    hide Part;
    hide AarqFrom;
    var body := AarqBody(password, mms);
    PrimLonger(0x60, body);
    if n >= 2 {
      PartBody(0x60, body, n, beyond);
      AarqOpened(Part(Prim(0x60, body), n, beyond));
      AarqBodyRead(password, mms);
    }
  }

  lemma SkipAare(s: View, offset: nat, tag: byte, content: bytes, a: Association)
    requires |content| < 0x1_0000 && tag != 0xA2 && tag != 0xBE && At(s.seen, offset, Prim(tag, content))
    ensures AareFrom(s, offset, |s.seen|, a) == AareFrom(s, offset + |Prim(tag, content)|, |s.seen|, a)
  {
    hide At;
    hide Prim;
    hide ShortLengthAt;
    hide Cut;
    ElementRead(s.seen, offset, tag, content, true);
  }

  lemma ResultIsPrim()
    ensures Prim(0xA2, [0x02, 0x01, 0x00]) == ACCEPTED
    ensures Prim(0xA3, [0xA1, 0x03, 0x02, 0x01, 0x00]) == DIAGNOSTIC
  {
  }

  lemma ResultRead(buf: bytes, offset: nat)
    requires offset + 3 <= |buf| && buf[offset..offset + 3] == [0x02, 0x01, 0x00]
    ensures ResultOctet(buf, offset, 3, 99) == Ok(0)
  {
    assert buf[offset] == buf[offset..offset + 3][0] && buf[offset + 2] == buf[offset..offset + 3][2];
  }

  lemma AareElements(s: View, start: nat, mms: bytes)
    requires |AareBody(mms)| < 0x100_0000
    requires At(s.seen, start, AareBody(mms)) && start + |AareBody(mms)| == |s.seen|
    ensures var r := AareFrom(s, start, |s.seen|, Association(99, None));
            r.Ok? && r.value.result == 0 && r.value.userData.Some? && r.value.userData.value.seen == mms
  {
    hide At;
    hide Prim;
    hide ShortLengthAt;
    hide ParseUserInfo;
    hide UserInfo;
    hide CONTEXT_NAME;
    hide ResultOctet;
    hide Cut;
    var buf := s.seen;
    var name, result := Prim(0xA1, CONTEXT_NAME), Prim(0xA2, [0x02, 0x01, 0x00]);
    var diagnostic, info := Prim(0xA3, [0xA1, 0x03, 0x02, 0x01, 0x00]), Prim(0xBE, UserInfo(mms));
    ResultIsPrim();
    NameSize();
    PrimLonger(0xBE, UserInfo(mms));
    AtConcat(buf, start, name + result + diagnostic, info);
    AtConcat(buf, start, name + result, diagnostic);
    AtConcat(buf, start, name, result);
    var p1 := start + |name|;
    var p2 := p1 + |result|;
    var p3 := p2 + |diagnostic|;
    SkipAare(s, start, 0xA1, CONTEXT_NAME, Association(99, None));
    ElementRead(buf, p1, 0xA2, [0x02, 0x01, 0x00], true);
    ResultRead(buf, p2 - 3);
    assert AareFrom(s, p1, |buf|, Association(99, None)) == AareFrom(s, p2, |buf|, Association(0, None));
    SkipAare(s, p2, 0xA3, [0xA1, 0x03, 0x02, 0x01, 0x00], Association(0, None));
    ElementRead(buf, p3, 0xBE, UserInfo(mms), true);
    var k := p3 + |info| - |UserInfo(mms)|;
    CutSeen(s, k, UserInfo(mms));
    UserInfoFound(Cut(s, k, |UserInfo(mms)|).value, mms);
  }

  /** The client finds an accepted result and the initiate response. */
  lemma AareRead(mms: bytes, beyond: bytes)
    requires |AareBody(mms)| < 0x100_0000
    ensures var r := ParseAARE(View(BuildAARE(mms), beyond));
            r.Ok? && r.value.seen == mms
  {
    hide Prim;
    hide At;
    hide ShortLengthAt;
    hide AareBody;
    hide AareFrom;
    var body := AareBody(mms);
    var s := View(Prim(0x61, body), beyond);
    ElementWhole(0x61, body, true);
    var start := |s.seen| - |body|;
    AtTail(s.seen, start, body);
    AareElements(s, start, mms);
  }

  lemma AtTail(buf: bytes, start: nat, s: bytes)
    requires start + |s| == |buf| && buf[start..] == s
    ensures At(buf, start, s)
  {
    assert buf[start..start + |s|] == buf[start..];
  }

  lemma ShortLengthAtPrefix(buf: bytes, k: nat, offset: nat, acse: bool)
    requires k <= |buf| && ShortLengthAt(buf[..k], offset, acse).Ok?
    ensures ShortLengthAt(buf, offset, acse) == ShortLengthAt(buf[..k], offset, acse)
  {
    hide FromBE;
    var n := buf[offset] % 128;
    if buf[offset] >= 128 {
      assert buf[..k][offset + 1..offset + 1 + n] == buf[offset + 1..offset + 1 + n];
    }
  }

  lemma FourLengthOctets(buf: bytes, tag: byte, content: bytes, acse: bool)
    requires buf == Prim(tag, content) && |content| >= 0x100_0000
    ensures !ShortLengthAt(buf, 1, acse).Ok?
  {
    hide ToBE;
    assert buf[1] == LengthBytes(|content|)[0] == 0x84;
  }

  lemma ShortLengthNeverFaults(buf: bytes, offset: nat, acse: bool)
    ensures !ShortLengthAt(buf, offset, acse).Panic?
  {
  }

  /** The client checks the length of an AARE against the slice, so a part of one is rejected. */
  lemma AarePartFails(mms: bytes, n: nat, beyond: bytes)
    requires n < |BuildAARE(mms)|
    ensures ParseAARE(Part(BuildAARE(mms), n, beyond)) == Err
  {
    hide Prim;
    hide ShortLengthAt;
    hide AareFrom;
    hide AareBody;
    var body := AareBody(mms);
    var buf := Prim(0x61, body);
    ShortLengthNeverFaults(buf[..n], 1, true);
    if n >= 2 && ShortLengthAt(buf[..n], 1, true).Ok? {
      ShortLengthAtPrefix(buf, n, 1, true);
      if |body| < 0x100_0000 {
        ElementWhole(0x61, body, true);
      } else {
        FourLengthOctets(buf, 0x61, body, true);
      }
    }
  }

  // ---- The association ----

  function ClientConnect(password: Option<bytes>, mms: bytes): bytes {
    BuildConnectSPDU(BuildConnectPDU(BuildAARQ(password, mms)))
  }

  /** serverConn.handle: CN, CP, AARQ. */
  function ServerSees(spdu: View): Result<bytes> {
    var cp :- ParseSpdu(SPDU_CONNECT, spdu);
    var aarq :- ParseConnectPDU(cp);
    ParseAARQ(aarq)
  }

  function ServerAccept(mms: bytes): bytes {
    BuildAcceptSPDU(BuildConnectAcceptPDU(BuildAARE(mms)))
  }

  /** DialWithOptions: AC, CPA, AARE. */
  function ClientSees(spdu: View): Result<bytes> {
    var cpa :- ParseSpdu(SPDU_ACCEPT, spdu);
    var aare :- ParseConnectPDU(cpa);
    var mms :- ParseAARE(aare);
    Ok(mms.seen)
  }

  /** What a connect or accept SPDU with `room` octets for its PPDU hands to the ACSE layer. */
  lemma AcseHandedOn(kind: byte, selectors: bytes, parameters: bytes, acse: bytes, beyond: bytes)
    requires Selectors(selectors) && Parameters(parameters)
    ensures var r := ParseSpdu(kind, View(ConnectSpdu(kind, selectors, ConnectPpdu(parameters, acse)), beyond));
            var room: nat := 255 - (|ACCEPT_ITEM| + |selectors| + 2);
            if Passes(room, |parameters|, |acse|)
            then r.Ok? && ParseConnectPDU(r.value) == Ok(Part(acse, Announced(|acse|), beyond))
            else r == Err || (r.Ok? && ParseConnectPDU(r.value) == Err)
  {
    hide ParseSpdu;
    hide ConnectSpdu;
    hide ConnectPpdu;
    hide ParseConnectPDU;
    hide Passes;
    hide PpduShown;
    hide PpduBodySize;
    hide Part;
    ParameterElements();
    PpduSizes(parameters, acse);
    var ppdu := ConnectPpdu(parameters, acse);
    SpduYields(kind, selectors, ppdu, beyond);
    PpduYields(parameters, acse, |ppdu| % 256, beyond);
    PassesExactly(255 - (|ACCEPT_ITEM| + |selectors| + 2), |parameters|, |acse|);
  }

  /**
   * An association request, with or without a password: the server recovers the initiate PDU if and only if the
   * presentation PDU fits the one-octet session length, or the AARQ has 64 KiB or more and all lengths wrap alike, so
   * that the slice handed to ParseAARQ still shows the length of the AARQ. It recovers nothing else, and never faults.
   */
  lemma RequestExactly(password: Option<bytes>, mms: bytes, beyond: bytes)
    requires |BuildAARQ(password, mms)| < LIMIT
    ensures var n, header := |BuildAARQ(password, mms)|, |BuildAARQ(password, mms)| - |AarqBody(password, mms)|;
            (ServerSees(View(ClientConnect(password, mms), beyond))
             == if 22 + |BuildConnectPDU(BuildAARQ(password, mms))| <= 255
                   || (n >= 0x1_0000 && header <= n % 0x1_0000 <= 156)
                then Ok(mms) else Err)
  {
    hide BuildAARQ;
    hide AarqBody;
    hide ServerSees;
    hide ClientConnect;
    hide ConnectPpdu;
    hide ParseAARQ;
    hide Part;
    hide PpduSize;
    hide Passes;
    var aarq := BuildAARQ(password, mms);
    AarqSizes(password, mms);
    RequestSize(aarq);
    RequestHandedOn(password, mms, beyond);
    AarqYields(password, mms, Announced(|aarq|), beyond);
    RequestPasses(|aarq|, |aarq| - |AarqBody(password, mms)|);
  }

  lemma AarqSizes(password: Option<bytes>, mms: bytes)
    ensures |AarqBody(password, mms)| + 2 <= |BuildAARQ(password, mms)|
  {
    hide AarqBody;
    PrimLonger(0x60, AarqBody(password, mms));
  }

  lemma RequestSize(acse: bytes)
    ensures |BuildConnectPDU(acse)| == PpduSize(49, |acse|)
  {
    hide ConnectPpdu;
    hide PpduBodySize;
    ParameterElements();
    PpduSizes(CALLER_PARAMETERS, acse);
  }

  lemma RequestPasses(n: nat, header: nat)
    requires header <= n
    ensures Passes(233, 49, n) && header <= Announced(n)
       <==> 22 + PpduSize(49, n) <= 255 || (n >= 0x1_0000 && header <= n % 0x1_0000 <= 156)
  {
    hide PpduSize;
    hide PpduBodySize;
    SizeOfPpdu(49, n);
  }

  lemma RequestHandedOn(password: Option<bytes>, mms: bytes, beyond: bytes)
    ensures var aarq := BuildAARQ(password, mms);
            (ServerSees(View(ClientConnect(password, mms), beyond))
             == if Passes(233, 49, |aarq|) then ParseAARQ(Part(aarq, Announced(|aarq|), beyond)) else Err)
  {
    hide BuildAARQ;
    hide ParseSpdu;
    hide ConnectSpdu;
    hide ConnectPpdu;
    hide ParseConnectPDU;
    hide ParseAARQ;
    hide Passes;
    hide Part;
    var aarq := BuildAARQ(password, mms);
    ParameterElements();
    SelectorSizes();
    AcseHandedOn(SPDU_CONNECT, CALLING_SELECTOR + CALLED_SELECTOR, CALLER_PARAMETERS, aarq, beyond);
  }

  lemma SelectorSizes()
    ensures |ACCEPT_ITEM| == 12 && |CALLED_SELECTOR| == 4 && |CALLING_SELECTOR + CALLED_SELECTOR| == 8
    ensures Selectors(CALLED_SELECTOR) && Selectors(CALLING_SELECTOR + CALLED_SELECTOR)
  {
  }

  /** The same for the client and the association response, which is rejected whenever it arrives in part. */
  lemma ResponseExactly(mms: bytes, beyond: bytes)
    ensures ClientSees(View(ServerAccept(mms), beyond))
         == if 18 + |BuildConnectAcceptPDU(BuildAARE(mms))| <= 255 then Ok(mms) else Err
  {
    hide AareBody;
    hide Prim;
    hide ParseSpdu;
    hide ConnectSpdu;
    hide ConnectPpdu;
    hide ParseConnectPDU;
    hide ParseAARE;
    hide PpduBodySize;
    hide Part;
    var aare := BuildAARE(mms);
    var n := |aare|;
    ParameterElements();
    SelectorSizes();
    PpduSizes(RESPONDER_PARAMETERS, aare);
    AcseHandedOn(SPDU_ACCEPT, CALLED_SELECTOR, RESPONDER_PARAMETERS, aare, beyond);
    SizeOfPpdu(26, n);
    if Announced(n) < n {
      AarePartFails(mms, Announced(n), beyond);
    } else {
      WholePart(aare, beyond);
      PrimLonger(0x61, AareBody(mms));
      AareRead(mms, beyond);
    }
  }

  // ---- The PDUs this stack really sends ----

  lemma InitiateSize(tag: byte)
    ensures |InitiatePDU(tag)| == 40
  {
    assert TwosComplement(65000) == [0x00, 0xFD, 0xE8] by {
      assert TwosComplement(253) == TwosComplement(0) + [0xFD];
    }
  }

  /** Octets of a TLV with a one-octet tag and an untruncated length. */
  function Grown(n: nat): nat {
    n + if n < 0x80 then 2 else if n <= 0xFF then 3 else if n <= 0xFFFF then 4 else if n <= 0xFF_FFFF then 5 else 6
  }

  lemma PrimLength(tag: byte, content: bytes)
    ensures |Prim(tag, content)| == Grown(|content|)
  {
  }

  /** Octets of the body of an AARQ around an initiate PDU of 40 octets, by the length of the password. */
  function RequestBody(password: Option<nat>): nat {
    match password
    case None => 58
    case Some(n) => 67 + Grown(2 + n)
  }

  function LengthOf(password: Option<bytes>): Option<nat> {
    match password
    case None => None
    case Some(pw) => Some(|pw|)
  }

  lemma RequestLengths(password: Option<bytes>, mms: bytes)
    requires |mms| == 40
    ensures |AarqBody(password, mms)| == RequestBody(LengthOf(password))
    ensures |BuildAARQ(password, mms)| == Grown(RequestBody(LengthOf(password)))
  {
    hide Prim;
    hide Grown;
    PrimLength(0xA0, mms);
    PrimLength(0x28, [0x02, 0x01, 0x03] + Prim(0xA0, mms));
    PrimLength(0xBE, UserInfo(mms));
    PrimLength(0xA1, CONTEXT_NAME);
    PrimLength(0x60, AarqBody(password, mms));
    SmallLengths();
    if password.Some? {
      PrimLength(0xAC, [0x80, |password.value| % 256] + password.value);
    }
  }

  lemma SmallLengths()
    ensures Grown(40) == 42 && Grown(45) == 47 && Grown(47) == 49 && Grown(7) == 9
    ensures Grown(70) == 72 && Grown(58) == 60
  {
  }

  lemma AareLength(mms: bytes)
    requires |mms| == 40
    ensures |BuildAARE(mms)| == 72
  {
    hide Prim;
    hide Grown;
    PrimLength(0xA0, mms);
    PrimLength(0x28, [0x02, 0x01, 0x03] + Prim(0xA0, mms));
    PrimLength(0xBE, UserInfo(mms));
    PrimLength(0xA1, CONTEXT_NAME);
    PrimLength(0x61, AareBody(mms));
    SmallLengths();
  }

  /** The lengths of a password that get through. */
  predicate PasswordPasses(n: nat) {
    var body := RequestBody(Some(n));
    n <= 87 || (Grown(body) >= 0x1_0000 && Grown(body) - body <= Grown(body) % 0x1_0000 <= 156)
  }

  lemma ShortRequests(n: nat)
    ensures 22 + PpduSize(49, Grown(RequestBody(Some(n)))) <= 255 <==> n <= 87
    ensures 22 + PpduSize(49, 60) <= 255 && 18 + PpduSize(26, 72) <= 255
  {
  }

  /** Up to 16 MB these are at most 87, 65463 to 65613, and the same window around every further multiple of 65536. */
  lemma PasswordWindows(n: nat)
    requires n < 0xFF_0000
    ensures PasswordPasses(n)
       <==> n <= 87 || 65463 <= n <= 65613 || (n > 65613 && 5 <= (n + 79) % 0x1_0000 <= 156)
  {
    if n <= 65613 {
      PasswordBelow(n);
    }
  }

  lemma PasswordBelow(n: nat)
    requires n <= 65613
    ensures PasswordPasses(n) <==> n <= 87 || 65463 <= n
  {
    if n < 65463 {
      assert Grown(RequestBody(Some(n))) < 0x1_0000 + 5;
    }
  }

  /**
   * With the initiate PDUs of this stack, whatever lies behind the received octets: a request with a password is
   * recovered if and only if PasswordPasses; the anonymous request and the response always are.
   */
  lemma PasswordLimit(password: bytes, beyond: bytes)
    requires |BuildAARQ(Some(password), InitiatePDU(0xA8))| < LIMIT
    ensures ServerSees(View(ClientConnect(Some(password), InitiatePDU(0xA8)), beyond))
         == if PasswordPasses(|password|) then Ok(InitiatePDU(0xA8)) else Err
    ensures ServerSees(View(ClientConnect(None, InitiatePDU(0xA8)), beyond)) == Ok(InitiatePDU(0xA8))
    ensures ClientSees(View(ServerAccept(InitiatePDU(0xA9)), beyond)) == Ok(InitiatePDU(0xA9))
  {
    hide BuildAARQ;
    hide AarqBody;
    hide ConnectPpdu;
    hide InitiatePDU;
    hide ServerSees;
    hide ClientSees;
    hide BuildAARE;
    hide PpduSize;
    hide Grown;
    InitiateSize(0xA8);
    InitiateSize(0xA9);
    RequestLengths(Some(password), InitiatePDU(0xA8));
    RequestLengths(None, InitiatePDU(0xA8));
    AareLength(InitiatePDU(0xA9));
    ShortRequests(|password|);
    SmallLengths();
    RequestSize(BuildAARQ(Some(password), InitiatePDU(0xA8)));
    RequestSize(BuildAARQ(None, InitiatePDU(0xA8)));
    ResponseSize(BuildAARE(InitiatePDU(0xA9)));
    RequestExactly(Some(password), InitiatePDU(0xA8), beyond);
    RequestExactly(None, InitiatePDU(0xA8), beyond);
    ResponseExactly(InitiatePDU(0xA9), beyond);
  }

  lemma ResponseSize(acse: bytes)
    ensures |BuildConnectAcceptPDU(acse)| == PpduSize(26, |acse|)
  {
    hide ConnectPpdu;
    hide PpduBodySize;
    ParameterElements();
    PpduSizes(RESPONDER_PARAMETERS, acse);
  }
}
