/** ISO session (8327), presentation (8823) and ACSE (8650) wrappers around MMS PDUs. */
module Layers {
  import opened Bytes
  import opened BerIntegers
  import opened Ber
  import opened MmsValues
  import opened MmsPdus

  // ---- Session ----

  const SPDU_CONNECT: byte := 0x0D
  const SPDU_ACCEPT: byte := 0x0E
  const DATA_HEADER: bytes := [0x01, 0x00, 0x01, 0x00]

  function WrapData(payload: bytes): bytes {
    DATA_HEADER + payload
  }

  function UnwrapData(buf: View): Result<View> {
    if |buf.seen| < 4 || buf.seen[..4] != DATA_HEADER then Err else Ok(View(buf.seen[4..], buf.beyond))
  }

  const ACCEPT_ITEM: bytes := [0x05, 0x06, 0x13, 0x01, 0x00, 0x16, 0x01, 0x02, 0x14, 0x02, 0x00, 0x02]
  const CALLING_SELECTOR: bytes := [0x33, 0x02, 0x00, 0x01]
  const CALLED_SELECTOR: bytes := [0x34, 0x02, 0x00, 0x01]

  /** BuildConnectSPDU and BuildAcceptSPDU: both length octets are truncated to eight bits. */
  function ConnectSpdu(kind: byte, selectors: bytes, pdu: bytes): bytes {
    [kind, (|ACCEPT_ITEM| + |selectors| + 2 + |pdu|) % 256]
    + ACCEPT_ITEM + selectors + [0xC1, |pdu| % 256] + pdu
  }

  function BuildConnectSPDU(pdu: bytes): bytes {
    ConnectSpdu(SPDU_CONNECT, CALLING_SELECTOR + CALLED_SELECTOR, pdu)
  }

  function BuildAcceptSPDU(pdu: bytes): bytes {
    ConnectSpdu(SPDU_ACCEPT, CALLED_SELECTOR, pdu)
  }

  /** extractUserData from index `i` on. */
  function UserDataFrom(params: View, i: nat): Result<View>
    decreases |params.seen| - i
  {
    var n := |params.seen|;
    if i + 1 >= n then Err
    else
      var plen := params.seen[i + 1];
      if params.seen[i] == 0xC1 then Cut(params, i + 2, if i + 2 + plen > n then n - (i + 2) else plen)
      else UserDataFrom(params, i + 2 + plen)
  }

  method ExtractUserData(params: View) returns (r: Result<View>)
    ensures r == UserDataFrom(params, 0)
  {
    var i := 0;
    while i < |params.seen|
      invariant 0 <= i
      invariant UserDataFrom(params, 0) == UserDataFrom(params, i)
      decreases |params.seen| - i
    {
      if i + 1 >= |params.seen| {
        break;
      }
      var pgi := params.seen[i];
      var plen: nat := params.seen[i + 1];
      i := i + 2;
      if pgi == 0xC1 {
        if i + plen > |params.seen| {
          plen := |params.seen| - i;
        }
        return Cut(params, i, plen);
      }
      i := i + plen;
    }
    return Err;
  }

  function ParseSpdu(kind: byte, buf: View): Result<View> {
    if |buf.seen| < 2 || buf.seen[0] != kind then Err
    else
      var length: nat := buf.seen[1];
      if |buf.seen| < 2 + length then Err
      else
        var params :- Cut(buf, 2, length);
        UserDataFrom(params, 0)
  }

  // ---- Presentation ----

  /** encodeLength of the presentation layer: at most two length octets. */
  function ShortLength(n: nat): bytes {
    if n < 0x80 then [n]
    else if n <= 0xFF then [0x81] + ToBE(n, 1)
    else [0x82] + ToBE(n % 0x1_0000, 2)
  }

  /** decodeLength of presentation and ACSE: at most three octets; ACSE lets an indefinite length pass as 0. */
  function ShortLengthAt(buf: bytes, offset: nat, acse: bool): (r: Result<(nat, nat)>)
    ensures r.Ok? ==> offset < r.value.1 <= |buf|
  {
    if offset >= |buf| then Err
    else
      var b := buf[offset];
      var n := b % 128;
      if b < 128 then Ok((b as nat, offset + 1))
      else if (n == 0 && !acse) || n > 3 || offset + 1 + n > |buf| then Err
      else Ok((FromBE(buf[offset + 1..offset + 1 + n]), offset + 1 + n))
  }

  function Element(tag: byte, content: bytes): bytes {
    [tag] + ShortLength(|content|) + content
  }

  function FullyEncoded(payload: bytes, contextID: byte): bytes {
    Element(0x61, Element(0x30, [0x02, 0x01, contextID] + Element(0xA0, payload)))
  }

  function WrapUserData(mms: bytes): bytes {
    FullyEncoded(mms, 3)
  }

  /** The PDV loop of parseFullyEncodedData. */
  function PdvFrom(buf: View, offset: nat, seqEnd: nat): Result<View>
    requires seqEnd <= |buf.seen|
    decreases |buf.seen| - offset
  {
    if offset >= seqEnd then Err
    else
      var (tlen, start) :- ShortLengthAt(buf.seen, offset + 1, false);
      if buf.seen[offset] == 0xA0 then
        if start + tlen > |buf.seen| then Err else Cut(buf, start, tlen)
      else PdvFrom(buf, start + tlen, seqEnd)
  }

  function ParseFullyEncoded(buf: View): Result<View> {
    if |buf.seen| == 0 || buf.seen[0] != 0x30 then Err
    else
      var (seqLen, start) :- ShortLengthAt(buf.seen, 1, false);
      PdvFrom(buf, start, if start + seqLen > |buf.seen| then |buf.seen| else start + seqLen)
  }

  method ParseFullyEncodedLoop(buf: View) returns (r: Result<View>)
    ensures r == ParseFullyEncoded(buf)
  {
    if |buf.seen| == 0 || buf.seen[0] != 0x30 {
      return Err;
    }
    var seq_ := ShortLengthAt(buf.seen, 1, false);
    if seq_.IsFailure() {
      return Err;
    }
    var (seqLen, start) := seq_.value;
    var offset := start;
    var seqEnd := offset + seqLen;
    if seqEnd > |buf.seen| {
      seqEnd := |buf.seen|;
    }
    while offset < seqEnd
      invariant 0 <= offset
      invariant PdvFrom(buf, start, seqEnd) == PdvFrom(buf, offset, seqEnd)
      decreases |buf.seen| - offset
    {
      var tag := buf.seen[offset];
      var l := ShortLengthAt(buf.seen, offset + 1, false);
      if l.IsFailure() {
        return Err;
      }
      var tlen := l.value.0;
      offset := l.value.1;
      if tag == 0xA0 {
        if offset + tlen > |buf.seen| {
          return Err;
        }
        return Cut(buf, offset, tlen);
      }
      offset := offset + tlen;
    }
    return Err;
  }

  function UnwrapUserData(buf: View): Result<View> {
    if |buf.seen| < 2 || buf.seen[0] != 0x61 then Err
    else
      var (length, offset) :- ShortLengthAt(buf.seen, 1, false);
      if offset + length > |buf.seen| then Err
      else
        var fed :- Cut(buf, offset, length);
        ParseFullyEncoded(fed)
  }

  const MODE_SELECTOR: bytes := [0xA0, 0x03, 0x80, 0x01, 0x01]
  const SELECTOR: bytes := [0x00, 0x00, 0x00, 0x01]
  const BER_SYNTAX: bytes := [0x30, 0x04, 0x06, 0x02, 0x51, 0x01]

  /** buildPCDL: ACSE under context 1, MMS under context 3. */
  const CONTEXT_LIST: bytes :=
    Element(0xA4, [0x30, 0x0F, 0x02, 0x01, 0x01, 0x06, 0x04, 0x52, 0x01, 0x00, 0x01] + BER_SYNTAX
                  + [0x30, 0x10, 0x02, 0x01, 0x03, 0x06, 0x05, 0x28, 0xCA, 0x22, 0x02, 0x01] + BER_SYNTAX)

  const ACCEPTED_CONTEXT: bytes := [0x30, 0x07, 0x80, 0x01, 0x00, 0x81, 0x02, 0x51, 0x01]

  const CONTEXT_RESULTS: bytes := [0xA5, 0x12] + ACCEPTED_CONTEXT + ACCEPTED_CONTEXT

  function ConnectPpdu(parameters: bytes, acse: bytes): bytes {
    Element(0x31, MODE_SELECTOR + Element(0xA2, parameters + FullyEncoded(acse, 1)))
  }

  const CALLER_PARAMETERS: bytes := [0x81, 0x04] + SELECTOR + [0x82, 0x04] + SELECTOR + CONTEXT_LIST
  const RESPONDER_PARAMETERS: bytes := [0x83, 0x04] + SELECTOR + CONTEXT_RESULTS

  function BuildConnectPDU(acse: bytes): bytes {
    ConnectPpdu(CALLER_PARAMETERS, acse)
  }

  function BuildConnectAcceptPDU(acse: bytes): bytes {
    ConnectPpdu(RESPONDER_PARAMETERS, acse)
  }

  /** parseNormalModeParameters from `offset` on; the user data are sliced without a check. */
  function NormalModeFrom(buf: View, offset: nat): Result<View>
    decreases |buf.seen| - offset
  {
    if offset >= |buf.seen| then Err
    else
      var (tlen, start) :- ShortLengthAt(buf.seen, offset + 1, false);
      if buf.seen[offset] == 0x61 then
        var fed :- Cut(buf, start, tlen);
        ParseFullyEncoded(fed)
      else NormalModeFrom(buf, start + tlen)
  }

  /** The element loop of ParseConnectAcceptPDU, which both sides use on CP and CPA; again an unchecked slice. */
  function PpduFrom(buf: View, offset: nat, end: nat): Result<View>
    requires end <= |buf.seen|
    decreases |buf.seen| - offset
  {
    if offset >= end then Err
    else
      var (tlen, start) :- ShortLengthAt(buf.seen, offset + 1, false);
      if buf.seen[offset] == 0xA2 then
        var nmp :- Cut(buf, start, tlen);
        NormalModeFrom(nmp, 0)
      else PpduFrom(buf, start + tlen, end)
  }

  function ParseConnectPDU(buf: View): Result<View> {
    if |buf.seen| == 0 || buf.seen[0] != 0x31 then Err
    else
      var (length, offset) :- ShortLengthAt(buf.seen, 1, false);
      if offset + length > |buf.seen| then Err else PpduFrom(buf, offset, offset + length)
  }

  // ---- ACSE ----

  const CONTEXT_NAME: bytes := [0x06, 0x05, 0x28, 0xCA, 0x22, 0x02, 0x03]

  /** buildUserInfo: EXTERNAL around the MMS PDU. */
  function UserInfo(mms: bytes): bytes {
    Prim(0x28, [0x02, 0x01, 0x03] + Prim(0xA0, mms))
  }

  function AuthFields(password: Option<bytes>): bytes {
    match password
    case None => []
    case Some(pw) =>
      [0x8A, 0x02, 0x04, 0x80] + [0x8B, 0x03, 0x52, 0x03, 0x01] + Prim(0xAC, [0x80, |pw| % 256] + pw)
  }

  function AarqBody(password: Option<bytes>, mms: bytes): bytes {
    Prim(0xA1, CONTEXT_NAME) + AuthFields(password) + Prim(0xBE, UserInfo(mms))
  }

  function BuildAARQ(password: Option<bytes>, mms: bytes): bytes {
    Prim(0x60, AarqBody(password, mms))
  }

  const ACCEPTED: bytes := [0xA2, 0x03, 0x02, 0x01, 0x00]
  const DIAGNOSTIC: bytes := [0xA3, 0x05, 0xA1, 0x03, 0x02, 0x01, 0x00]

  function AareBody(mms: bytes): bytes {
    Prim(0xA1, CONTEXT_NAME) + ACCEPTED + DIAGNOSTIC + Prim(0xBE, UserInfo(mms))
  }

  /** mms.BuildAARE. */
  function BuildAARE(mms: bytes): bytes {
    Prim(0x61, AareBody(mms))
  }

  /** extractMmsFromUserInfo: descend through EXTERNAL to the first [0]. */
  function MmsIn(buf: bytes, pos: nat): Result<bytes>
    decreases |buf|, |buf| - pos
  {
    if pos >= |buf| then Err
    else
      match TLVAt(buf, pos)
      case Ok((tlv, next)) =>
        if IsContext(tlv, 0) then Ok(tlv.value)
        else if tlv.class_ == CLASS_UNIVERSAL && tlv.constructed && tlv.tag == 8 then MmsIn(tlv.value, 0)
        else MmsIn(buf, next)
      case _ => Err
  }

  function AarqFrom(body: bytes, pos: nat): Result<bytes>
    decreases |body| - pos
  {
    if pos >= |body| then Err
    else
      var (tlv, next) :- TLVAt(body, pos);
      if IsContext(tlv, 30) then MmsIn(tlv.value, 0) else AarqFrom(body, next)
  }

  /** mms.ParseAARQ, which slices the body out without a check. */
  function ParseAARQ(buf: View): Result<bytes> {
    if |buf.seen| < 2 || buf.seen[0] != 0x60 then Err
    else
      var (length, offset) :- LengthAt(buf.seen, 1);
      var body :- Cut(buf, offset, length);
      AarqFrom(body.seen, 0)
  }

  function SingleFrom(buf: View, offset: nat): Result<View>
    decreases |buf.seen| - offset
  {
    if offset >= |buf.seen| then Err
    else
      var (tlen, start) :- ShortLengthAt(buf.seen, offset + 1, true);
      if buf.seen[offset] == 0xA0 then Cut(buf, start, tlen) else SingleFrom(buf, start + tlen)
  }

  method ScanForSingleASN1(buf: View) returns (r: Result<View>)
    ensures r == SingleFrom(buf, 0)
  {
    var offset := 0;
    while offset < |buf.seen|
      invariant 0 <= offset
      invariant SingleFrom(buf, 0) == SingleFrom(buf, offset)
      decreases |buf.seen| - offset
    {
      var tag := buf.seen[offset];
      var l := ShortLengthAt(buf.seen, offset + 1, true);
      if l.IsFailure() {
        return Err;
      }
      offset := l.value.1;
      if tag == 0xA0 {
        return Cut(buf, offset, l.value.0);
      }
      offset := offset + l.value.0;
    }
    return Err;
  }

  function ParseUserInfo(buf: View): Result<View> {
    if |buf.seen| == 0 then Err
    else if buf.seen[0] != 0x28 then SingleFrom(buf, 0)
    else
      var (length, offset) :- ShortLengthAt(buf.seen, 1, true);
      var ext :- Cut(buf, offset, length);
      SingleFrom(ext, 0)
  }

  datatype Association = Association(result: int, userData: Option<View>)

  function ResultOctet(buf: bytes, offset: nat, tlen: nat, result: int): Result<int> {
    if tlen < 3 then Ok(result)
    else if offset >= |buf| then Panic
    else if buf[offset] == 0x02 && offset + 2 < |buf| then Ok(buf[offset + 2])
    else Ok(result)
  }

  function AareFrom(buf: View, offset: nat, end: nat, a: Association): Result<Association>
    requires end <= |buf.seen|
    decreases |buf.seen| - offset
  {
    if offset >= end then Ok(a)
    else
      var (tlen, start) :- ShortLengthAt(buf.seen, offset + 1, true);
      if buf.seen[offset] == 0xA2 then
        var result :- ResultOctet(buf.seen, start, tlen, a.result);
        AareFrom(buf, start + tlen, end, a.(result := result))
      else if buf.seen[offset] == 0xBE then
        var info :- Cut(buf, start, tlen);
        var data :- ParseUserInfo(info);
        AareFrom(buf, start + tlen, end, a.(userData := Some(data)))
      else AareFrom(buf, start + tlen, end, a)
  }

  function ParseAARE(buf: View): Result<View> {
    if |buf.seen| < 2 || buf.seen[0] != 0x61 then Err
    else
      var (length, offset) :- ShortLengthAt(buf.seen, 1, true);
      if offset + length > |buf.seen| then Err
      else
        var a :- AareFrom(buf, offset, offset + length, Association(99, None));
        if a.result != 0 || a.userData.None? then Err else Ok(a.userData.value)
  }

  method ParseAAREElements(buf: View, start: nat, end: nat) returns (r: Result<Association>)
    requires start <= |buf.seen| && end <= |buf.seen|
    ensures r == AareFrom(buf, start, end, Association(99, None))
  {
    var result: int := 99;
    var userData: Option<View> := None;
    var offset := start;
    while offset < end
      invariant 0 <= offset
      invariant AareFrom(buf, start, end, Association(99, None)) == AareFrom(buf, offset, end, Association(result, userData))
      decreases |buf.seen| - offset
    {
      var tag := buf.seen[offset];
      var l := ShortLengthAt(buf.seen, offset + 1, true);
      if l.IsFailure() {
        return Err;
      }
      var tlen := l.value.0;
      offset := l.value.1;
      if tag == 0xA2 {
        var code := ResultOctet(buf.seen, offset, tlen, result);
        if code.IsFailure() {
          return Panic;
        }
        result := code.value;
      } else if tag == 0xBE {
        var info := Cut(buf, offset, tlen);
        if info.IsFailure() {
          return Panic;
        }
        var data := ParseUserInfo(info.value);
        if data.IsFailure() {
          return data.PropagateFailure();
        }
        userData := Some(data.value);
      }
      offset := offset + tlen;
    }
    return Ok(Association(result, userData));
  }

  // ---- The initiate PDU of this stack ----

  function InitiateBody(): bytes {
    ContextTLV(0, false, TwosComplement(65000)) + ContextTLV(1, false, [5]) + ContextTLV(2, false, [5])
    + ContextTLV(3, false, [10])
    + ContextTLV(4, true, ContextTLV(0, false, [1]) + ContextTLV(1, false, [0x05, 0xF1, 0x00])
                          + ContextTLV(2, false, [0x03, 0xEE, 0x1C, 0x00, 0x00, 0x04, 0x08, 0x00, 0x00, 0x79, 0xEF, 0x18]))
  }

  /** EncodeInitiateRequest (0xA8) and EncodeInitiateResponse (0xA9), which share their body. */
  function InitiatePDU(tag: byte): bytes {
    Prim(tag, InitiateBody())
  }
}
