/**
 * Down through session, presentation and ACSE and up again, octet for octet as the readers slice: what a reader is
 * handed, for every PDU and whatever lies behind the received octets in memory.
 */
module LayerStack {
  import opened Bytes
  import opened BerIntegers
  import opened Ber
  import opened MmsValues
  import opened MmsPdus
  import opened MmsPduRoundTrip
  import opened Layers

  // ---- One element, three length decoders ----

  /** Below 2^24 octets all three decoders read what EncodeLength wrote. */
  lemma ShortLengthRead(buf: bytes, offset: nat, n: nat, acse: bool)
    requires n < 0x100_0000 && LengthAt(buf, offset) == Ok((n, offset + |LengthBytes(n)|))
    requires At(buf, offset, LengthBytes(n))
    ensures ShortLengthAt(buf, offset, acse) == Ok((n, offset + |LengthBytes(n)|))
  {
    hide FromBE;
    hide ToBE;
    if n < 0x80 {
      AtOne(buf, offset, n);
    } else {
      var k := if n <= 0xFF then 1 else if n <= 0xFFFF then 2 else 3;
      AtHead(buf, offset, 128 + k, ToBE(n, k));
    }
  }

  lemma ElementRead(buf: bytes, offset: nat, tag: byte, content: bytes, acse: bool)
    requires |content| < 0x100_0000 && At(buf, offset, Prim(tag, content))
    ensures offset < |buf| && buf[offset] == tag
    ensures ShortLengthAt(buf, offset + 1, acse) == Ok((|content|, offset + |Prim(tag, content)| - |content|))
    ensures offset + |Prim(tag, content)| <= |buf|
    ensures buf[offset + |Prim(tag, content)| - |content|..offset + |Prim(tag, content)|] == content
  {
    hide LengthBytes;
    hide LengthAt;
    hide ShortLengthAt;
    var l := LengthBytes(|content|);
    assert Prim(tag, content) == [tag] + (l + content);
    AtHead(buf, offset, tag, l + content);
    AtConcat(buf, offset + 1, l, content);
    LengthRoundTrip(buf, offset + 1, |content|);
    ShortLengthRead(buf, offset + 1, |content|, acse);
    AtSlice(buf, offset + 1 + |l|, content);
  }

  lemma ElementWhole(tag: byte, content: bytes, acse: bool)
    requires |content| < 0x100_0000
    ensures var buf := Prim(tag, content);
            && |buf| >= 2 && buf[0] == tag
            && ShortLengthAt(buf, 1, acse) == Ok((|content|, |buf| - |content|))
            && buf[|buf| - |content|..] == content
  {
    hide Prim;
    hide ShortLengthAt;
    var buf := Prim(tag, content);
    AtWhole(buf);
    ElementRead(buf, 0, tag, content, acse);
    assert buf[|buf| - |content|..|buf|] == buf[|buf| - |content|..];
  }

  // ---- Elements with a truncated length, in a slice that may end anywhere ----

  /** Octets in front of the content of an element. */
  function Header(n: nat): nat {
    if n < 0x80 then 2 else if n <= 0xFF then 3 else 4
  }

  /** What the two length octets of the presentation layer announce. */
  function Announced(n: nat): nat {
    n % 0x1_0000
  }

  function Sized(n: nat): nat {
    Header(n) + n
  }

  lemma ElementSize(tag: byte, content: bytes)
    ensures |Element(tag, content)| == Sized(|content|) && |ShortLength(|content|)| == Header(|content|) - 1
  {
  }

  lemma ShortLengthOctets(n: nat)
    ensures n < 0x80 ==> ShortLength(n) == [n]
    ensures 0x80 <= n <= 0xFF ==> ShortLength(n) == [0x81] + ToBE(n, 1) && FromBE(ToBE(n, 1)) == n
    ensures n > 0xFF ==> ShortLength(n) == [0x82] + ToBE(Announced(n), 2) && FromBE(ToBE(Announced(n), 2)) == Announced(n)
  {
    PowersOf256();
    if 0x80 <= n <= 0xFF {
      FromToBE(n, 1);
    } else if n > 0xFF {
      FromToBE(n % 0x1_0000, 2);
    }
  }

  lemma ShortLengthShown(buf: bytes, memory: bytes, at: nat, n: nat, rest: bytes)
    requires buf <= memory && at <= |memory| && memory[at..] == ShortLength(n) + rest
    ensures ShortLengthAt(buf, at, false)
         == if at + |ShortLength(n)| <= |buf| then Ok((Announced(n), at + |ShortLength(n)|)) else Err
  {
    hide ShortLength;
    hide ToBE;
    hide FromBE;
    ShortLengthOctets(n);
    var sl := ShortLength(n);
    if at < |buf| {
      assert buf[at] == memory[at..][0] == sl[0];
      var k := |sl| - 1;
      if k > 0 && at + 1 + k <= |buf| {
        assert buf[at + 1..at + 1 + k] == memory[at..][1..1 + k] == sl[1..];
      }
    }
  }

  /** The header of an element that stands in memory: whether the reader gets past it depends on what is shown. */
  lemma HeaderSeen(s: View, off: nat, tag: byte, content: bytes, tail: bytes)
    requires off < |s.seen| && s.Memory()[off..] == Element(tag, content) + tail
    ensures s.seen[off] == tag
    ensures ShortLengthAt(s.seen, off + 1, false)
         == if off + Header(|content|) <= |s.seen| then Ok((Announced(|content|), off + Header(|content|))) else Err
    ensures off + Sized(|content|) <= |s.Memory()| && s.Memory()[off + Header(|content|)..] == content + tail
  {
    hide ShortLength;
    hide ShortLengthAt;
    ElementSize(tag, content);
    var memory, sl := s.Memory(), ShortLength(|content|);
    var all := [tag] + (sl + (content + tail));
    assert Element(tag, content) + tail == all;
    assert s.seen[off] == memory[off..][0];
    assert memory[off + 1..] == memory[off..][1..] && all[1..] == sl + (content + tail);
    ShortLengthShown(s.seen, memory, off + 1, |content|, content + tail);
    assert memory[off + 1 + |sl|..] == memory[off..][1 + |sl|..] && all[1 + |sl|..] == content + tail;
  }

  lemma PastElement(memory: bytes, off: nat, tag: byte, content: bytes, tail: bytes)
    requires off <= |memory| && memory[off..] == Element(tag, content) + tail
    ensures off + Sized(|content|) <= |memory| && memory[off + Sized(|content|)..] == tail
  {
    hide Element;
    ElementSize(tag, content);
    assert memory[off + Sized(|content|)..] == memory[off..][Sized(|content|)..];
  }

  // ---- Fully-encoded data ----

  function Pdv(payload: bytes, contextID: byte): bytes {
    Element(0x30, [0x02, 0x01, contextID] + Element(0xA0, payload))
  }

  function PdvSize(n: nat): nat {
    Sized(3 + Sized(n))
  }

  lemma PdvSizes(payload: bytes, contextID: byte)
    ensures |Pdv(payload, contextID)| == PdvSize(|payload|)
    ensures FullyEncoded(payload, contextID) == Element(0x61, Pdv(payload, contextID))
    ensures |FullyEncoded(payload, contextID)| == Sized(PdvSize(|payload|))
  {
    hide Element;
    ElementSize(0xA0, payload);
    ElementSize(0x30, [0x02, 0x01, contextID] + Element(0xA0, payload));
    ElementSize(0x61, Pdv(payload, contextID));
  }

  lemma IdIsElement(contextID: byte)
    ensures Element(0x02, [contextID]) == [0x02, 0x01, contextID]
  {
  }

  lemma PdvSkip(s: View, off: nat, end: nat, contextID: byte, tail: bytes)
    requires end <= |s.seen| && off <= |s.Memory()| && s.Memory()[off..] == Element(0x02, [contextID]) + tail
    ensures PdvFrom(s, off, end) == PdvFrom(s, off + 3, end)
    ensures off + 3 <= |s.Memory()| && s.Memory()[off + 3..] == tail
  {
    hide Element;
    hide ShortLengthAt;
    hide Cut;
    PastElement(s.Memory(), off, 0x02, [contextID], tail);
    if off < end {
      HeaderSeen(s, off, 0x02, [contextID], tail);
    }
  }

  lemma PdvReached(s: View, off: nat, end: nat, payload: bytes, tail: bytes)
    requires end <= |s.seen| && off <= |s.Memory()| && s.Memory()[off..] == Element(0xA0, payload) + tail
    ensures PdvFrom(s, off, end)
         == if off < end && off + Header(|payload|) + Announced(|payload|) <= |s.seen|
            then Ok(Part(payload, Announced(|payload|), tail)) else Err
  {
    hide Element;
    hide ShortLengthAt;
    hide Cut;
    hide Part;
    if off < end {
      HeaderSeen(s, off, 0xA0, payload, tail);
      CutPart(s, off + Header(|payload|), Announced(|payload|), payload, tail);
    }
  }

  /** Whether a slice that shows `f` octets of the PDV list shows as much of its payload as the payload's length says. */
  predicate PdvShown(n: nat, f: nat) {
    var start, inner := Header(3 + Sized(n)), 3 + Sized(n);
    && start + 3 < f && start + 3 < start + Announced(inner)
    && start + 3 + Header(n) + Announced(n) <= f
  }

  lemma FedYields(payload: bytes, contextID: byte, f: nat, tail: bytes)
    requires f <= |Pdv(payload, contextID)|
    ensures ParseFullyEncoded(Part(Pdv(payload, contextID), f, tail))
         == if PdvShown(|payload|, f) then Ok(Part(payload, Announced(|payload|), tail)) else Err
  {
    hide Element;
    hide ShortLengthAt;
    hide PdvFrom;
    hide Part;
    var data := Element(0xA0, payload);
    var inner := [0x02, 0x01, contextID] + data;
    ElementSize(0xA0, payload);
    var s := Part(Pdv(payload, contextID), f, tail);
    if f > 0 {
      assert s.Memory()[0..] == s.Memory();
      HeaderSeen(s, 0, 0x30, inner, tail);
      var start := Header(|inner|);
      if start <= f {
        var end := if start + Announced(|inner|) > f then f else start + Announced(|inner|);
        IdIsElement(contextID);
        assert inner + tail == Element(0x02, [contextID]) + (data + tail);
        PdvSkip(s, start, end, contextID, data + tail);
        PdvReached(s, start + 3, end, payload, tail);
      }
    }
  }

  // ---- Data path ----

  /** Nothing is truncated. */
  lemma ShownSmall(n: nat)
    requires n <= 60000
    ensures PdvShown(n, PdvSize(n)) && PdvSize(n) < 0x1_0000
  {
  }

  lemma ShownLarge(n: nat, f: nat)
    requires n > 0xFF
    ensures PdvSize(n) == n + 11
    ensures PdvShown(n, f) <==> 7 < f && 7 < 4 + Announced(n + 7) && 11 + Announced(n) <= f
  {
  }

  lemma DataShown(n: nat)
    ensures PdvShown(n, Announced(PdvSize(n))) <==> Announced(n) <= 65524
  {
    hide PdvShown;
    hide PdvSize;
    if n <= 60000 {
      ShownSmall(n);
    } else {
      ShownLarge(n, Announced(n + 11));
      var q, r := n / 0x1_0000, n % 0x1_0000;
      assert n == q * 0x1_0000 + r;
      assert r + 11 < 0x1_0000 ==> (n + 11) % 0x1_0000 == r + 11 && (n + 7) % 0x1_0000 == r + 7;
      assert r + 11 >= 0x1_0000 ==> (n + 11) % 0x1_0000 == r + 11 - 0x1_0000;
    }
  }

  /** What comes out of session and presentation again. */
  function Carried(mms: bytes, beyond: bytes): Result<View> {
    var spdu :- UnwrapData(View(WrapData(WrapUserData(mms)), beyond));
    UnwrapUserData(spdu)
  }

  /**
   * The receiver is handed a slice that starts with the PDU and shows as many octets as its length modulo 65536, if
   * that is at most 65524, and nothing otherwise; the rest of the PDU lies behind the slice.
   */
  lemma DataPathExactly(mms: bytes, beyond: bytes)
    ensures Carried(mms, beyond)
         == if Announced(|mms|) <= 65524 then Ok(Part(mms, Announced(|mms|), beyond)) else Err
  {
    hide Element;
    hide ShortLengthAt;
    hide ParseFullyEncoded;
    hide PdvShown;
    hide Part;
    hide Pdv;
    hide PdvSize;
    hide FullyEncoded;
    var w := WrapData(WrapUserData(mms));
    assert w[..4] == DATA_HEADER && w[4..] == WrapUserData(mms);
    PdvSizes(mms, 3);
    var pdv := Pdv(mms, 3);
    ElementSize(0x61, pdv);
    var s := View(Element(0x61, pdv), beyond);
    assert s.Memory()[0..] == Element(0x61, pdv) + beyond;
    HeaderSeen(s, 0, 0x61, pdv, beyond);
    CutPart(s, Header(|pdv|), Announced(|pdv|), pdv, beyond);
    FedYields(mms, 3, Announced(|pdv|), beyond);
    DataShown(|mms|);
  }

  /** What a receive loop makes of an MMS PDU that went through the layers: the body behind the expected tag. */
  function BodyCarried(tag: byte, pdu: bytes, beyond: bytes): Result<bytes> {
    var data :- Carried(pdu, beyond);
    if data.seen == [] then Err else PduBody(tag, data)
  }

  /**
   * The receiver reads the whole PDU if and only if its length modulo 65536 is at most 65524 and covers its own tag
   * and length, as it does for every PDU of at most 65524 octets; otherwise it reads nothing.
   */
  lemma PduCarriedExactly(tag: byte, body: bytes, beyond: bytes)
    requires |body| < LIMIT
    ensures var pdu := Prim(tag, body);
            (BodyCarried(tag, pdu, beyond)
             == if |pdu| - |body| <= |pdu| % 0x1_0000 <= 65524 then Ok(body) else Err)
    ensures |Prim(tag, body)| <= 65524 ==> BodyCarried(tag, Prim(tag, body), beyond) == Ok(body)
  {
    hide Prim;
    hide Carried;
    hide PduBody;
    hide Part;
    var pdu := Prim(tag, body);
    PrimLonger(tag, body);
    DataPathExactly(pdu, beyond);
    PartBody(tag, body, Announced(|pdu|), beyond);
    if 0 < |pdu| <= 65524 {
      assert |pdu| % 0x1_0000 == |pdu|;
    }
  }

  lemma PrimLonger(tag: byte, content: bytes)
    ensures |Prim(tag, content)| >= 2 + |content|
  {
  }

  // ---- Session at connection time ----

  predicate Selectors(selectors: bytes) {
    selectors == CALLED_SELECTOR || selectors == CALLING_SELECTOR + CALLED_SELECTOR
  }

  lemma SkipParameter(params: View, i: nat, pgi: byte, plen: byte)
    requires i + 2 <= |params.Memory()| && params.Memory()[i] == pgi != 0xC1 && params.Memory()[i + 1] == plen
    ensures UserDataFrom(params, i) == UserDataFrom(params, i + 2 + plen)
  {
    hide Cut;
  }

  /** The parameters in front of the user data are all skipped. */
  lemma ParametersSkipped(params: View, selectors: bytes, rest: bytes)
    requires Selectors(selectors) && params.Memory() == ACCEPT_ITEM + selectors + rest
    ensures UserDataFrom(params, 0) == UserDataFrom(params, |ACCEPT_ITEM| + |selectors|)
  {
    hide UserDataFrom;
    SkipParameter(params, 0, 0x05, 0x06);
    SkipParameter(params, 8, 0x14, 0x02);
    if selectors == CALLED_SELECTOR {
      SkipParameter(params, 12, 0x34, 0x02);
    } else {
      SkipParameter(params, 12, 0x33, 0x02);
      SkipParameter(params, 16, 0x34, 0x02);
    }
  }

  lemma UserDataReached(params: View, i: nat, pdu: bytes, tail: bytes)
    requires i <= |params.Memory()| && params.Memory()[i..] == [0xC1, |pdu| % 256] + (pdu + tail)
    requires i + 2 <= |params.seen| ==> |params.seen| <= i + 2 + |pdu| % 256
    ensures UserDataFrom(params, i)
         == if i + 2 <= |params.seen| then Ok(Part(pdu, |params.seen| - (i + 2), tail)) else Err
  {
    hide Cut;
    hide Part;
    var memory := params.Memory();
    if i + 2 <= |params.seen| {
      assert params.seen[i] == memory[i..][0] && params.seen[i + 1] == memory[i..][1];
      assert memory[i + 2..] == memory[i..][2..] == pdu + tail;
      CutPart(params, i + 2, |params.seen| - (i + 2), pdu, tail);
    }
  }

  /**
   * A connect or accept SPDU hands on a slice that starts with the presentation PDU and shows as many octets as its
   * length modulo 256, unless the parameters in front push the length octet of the SPDU over its limit.
   */
  lemma SpduYields(kind: byte, selectors: bytes, pdu: bytes, beyond: bytes)
    requires Selectors(selectors)
    ensures ParseSpdu(kind, View(ConnectSpdu(kind, selectors, pdu), beyond))
         == if |ACCEPT_ITEM| + |selectors| + 2 + |pdu| % 256 <= 255 then Ok(Part(pdu, |pdu| % 256, beyond)) else Err
  {
    hide UserDataFrom;
    hide Cut;
    hide Part;
    var buf := View(ConnectSpdu(kind, selectors, pdu), beyond);
    var all := SpduParameters(selectors, pdu);
    assert buf.seen[2..] == all && buf.Memory()[2..] == all + beyond;
    var length: nat := buf.seen[1];
    CutPart(buf, 2, length, all, beyond);
    ParametersYield(selectors, pdu, length, beyond);
  }

  function SpduParameters(selectors: bytes, pdu: bytes): bytes {
    ACCEPT_ITEM + selectors + ([0xC1, |pdu| % 256] + pdu)
  }

  /** Where the user data stand among the parameters. */
  lemma UserDataPlaced(selectors: bytes, pdu: bytes, beyond: bytes)
    ensures var all, i := SpduParameters(selectors, pdu), |ACCEPT_ITEM| + |selectors|;
            && |all| == i + 2 + |pdu|
            && all + beyond == ACCEPT_ITEM + selectors + ([0xC1, |pdu| % 256] + pdu + beyond)
            && (all + beyond)[i..] == [0xC1, |pdu| % 256] + (pdu + beyond)
  {
    hide ACCEPT_ITEM;
    var i := |ACCEPT_ITEM| + |selectors|;
    var rest := [0xC1, |pdu| % 256] + (pdu + beyond);
    assert SpduParameters(selectors, pdu) + beyond == (ACCEPT_ITEM + selectors) + rest;
    assert ((ACCEPT_ITEM + selectors) + rest)[i..] == rest;
  }

  /** How much of the PDU is in view: the lengths of SPDU and user data wrap alike. */
  lemma WrapAlike(i: nat, n: nat, length: nat)
    requires i <= 20 && length == (i + 2 + n) % 256
    ensures i + 2 + n % 256 <= 255 ==> length == i + 2 + n % 256
    ensures i + 2 + n % 256 > 255 ==> length < i + 2
  {
  }

  lemma ParametersYield(selectors: bytes, pdu: bytes, length: nat, beyond: bytes)
    requires Selectors(selectors) && length == (|ACCEPT_ITEM| + |selectors| + 2 + |pdu|) % 256
    requires length <= |SpduParameters(selectors, pdu)|
    ensures UserDataFrom(Part(SpduParameters(selectors, pdu), length, beyond), 0)
         == if |ACCEPT_ITEM| + |selectors| + 2 + |pdu| % 256 <= 255 then Ok(Part(pdu, |pdu| % 256, beyond)) else Err
  {
    hide UserDataFrom;
    hide Cut;
    hide Part;
    hide SpduParameters;
    var params := Part(SpduParameters(selectors, pdu), length, beyond);
    var i := |ACCEPT_ITEM| + |selectors|;
    UserDataPlaced(selectors, pdu, beyond);
    WrapAlike(i, |pdu|, length);
    ParametersSkipped(params, selectors, [0xC1, |pdu| % 256] + pdu + beyond);
    UserDataReached(params, i, pdu, beyond);
  }

  /** In particular it shows the whole PDU if and only if the length fits one octet. */
  lemma SpduExactly(kind: byte, selectors: bytes, pdu: bytes, beyond: bytes)
    requires Selectors(selectors)
    ensures ParseSpdu(kind, View(ConnectSpdu(kind, selectors, pdu), beyond)) == Ok(View(pdu, beyond))
        <==> |ACCEPT_ITEM| + |selectors| + 2 + |pdu| <= 255
  {
    hide ParseSpdu;
    hide Part;
    SpduYields(kind, selectors, pdu, beyond);
    WholePart(pdu, beyond);
  }

  // ---- Presentation at connection time ----

  predicate Parameters(parameters: bytes) {
    parameters == CALLER_PARAMETERS || parameters == RESPONDER_PARAMETERS
  }

  const LIST_CONTENT: bytes :=
    [0x30, 0x0F, 0x02, 0x01, 0x01, 0x06, 0x04, 0x52, 0x01, 0x00, 0x01] + BER_SYNTAX
    + [0x30, 0x10, 0x02, 0x01, 0x03, 0x06, 0x05, 0x28, 0xCA, 0x22, 0x02, 0x01] + BER_SYNTAX

  lemma ParameterElements()
    ensures CALLER_PARAMETERS == Element(0x81, SELECTOR) + (Element(0x82, SELECTOR) + Element(0xA4, LIST_CONTENT))
    ensures RESPONDER_PARAMETERS == Element(0x83, SELECTOR) + Element(0xA5, ACCEPTED_CONTEXT + ACCEPTED_CONTEXT)
    ensures |LIST_CONTENT| == 35 && |CALLER_PARAMETERS| == 49 && |RESPONDER_PARAMETERS| == 26
  {
    assert |LIST_CONTENT| == 35;
    assert CONTEXT_LIST == Element(0xA4, LIST_CONTENT);
    assert Element(0x81, SELECTOR) == [0x81, 0x04] + SELECTOR;
    assert Element(0x82, SELECTOR) == [0x82, 0x04] + SELECTOR;
    assert Element(0x83, SELECTOR) == [0x83, 0x04] + SELECTOR;
    assert Element(0xA5, ACCEPTED_CONTEXT + ACCEPTED_CONTEXT) == [0xA5, 0x12] + (ACCEPTED_CONTEXT + ACCEPTED_CONTEXT);
  }

  lemma SkipElement(s: View, off: nat, tag: byte, content: bytes, tail: bytes)
    requires |content| < 0x1_0000 && tag != 0x61
    requires off <= |s.Memory()| && s.Memory()[off..] == Element(tag, content) + tail
    ensures NormalModeFrom(s, off) == NormalModeFrom(s, off + |Element(tag, content)|)
    ensures off + |Element(tag, content)| <= |s.Memory()| && s.Memory()[off + |Element(tag, content)|..] == tail
  {
    hide Element;
    hide ShortLengthAt;
    hide ParseFullyEncoded;
    hide Cut;
    ElementSize(tag, content);
    PastElement(s.Memory(), off, tag, content, tail);
    if off < |s.seen| {
      HeaderSeen(s, off, tag, content, tail);
    }
  }

  /** The reader of the normal-mode parameters gets past the elements in front of the user data. */
  lemma ParametersPassed(s: View, parameters: bytes, rest: bytes)
    requires Parameters(parameters) && s.Memory() == parameters + rest
    ensures NormalModeFrom(s, 0) == NormalModeFrom(s, |parameters|)
    ensures s.Memory()[|parameters|..] == rest
  {
    hide Element;
    hide NormalModeFrom;
    hide LIST_CONTENT;
    hide SELECTOR;
    hide ACCEPTED_CONTEXT;
    hide CALLER_PARAMETERS;
    hide RESPONDER_PARAMETERS;
    ParameterElements();
    SmallContents();
    if parameters == CALLER_PARAMETERS {
      ThreePassed(s, 0x81, SELECTOR, 0x82, SELECTOR, 0xA4, LIST_CONTENT, rest);
    } else {
      TwoPassed(s, 0x83, SELECTOR, 0xA5, ACCEPTED_CONTEXT + ACCEPTED_CONTEXT, rest);
    }
  }

  lemma SmallContents()
    ensures |SELECTOR| == 4 && |ACCEPTED_CONTEXT| == 9
  {
  }

  lemma TwoPassed(s: View, t: byte, a: bytes, u: byte, b: bytes, rest: bytes)
    requires |a| < 0x1_0000 && |b| < 0x1_0000 && t != 0x61 && u != 0x61
    requires s.Memory() == Element(t, a) + Element(u, b) + rest
    ensures NormalModeFrom(s, 0) == NormalModeFrom(s, |Element(t, a) + Element(u, b)|)
    ensures s.Memory()[|Element(t, a) + Element(u, b)|..] == rest
  {
    hide Element;
    hide NormalModeFrom;
    assert s.Memory()[0..] == Element(t, a) + (Element(u, b) + rest);
    SkipElement(s, 0, t, a, Element(u, b) + rest);
    SkipElement(s, |Element(t, a)|, u, b, rest);
  }

  lemma ThreePassed(s: View, t: byte, a: bytes, u: byte, b: bytes, w: byte, c: bytes, rest: bytes)
    requires |a| < 0x1_0000 && |b| < 0x1_0000 && |c| < 0x1_0000 && t != 0x61 && u != 0x61 && w != 0x61
    requires s.Memory() == Element(t, a) + (Element(u, b) + Element(w, c)) + rest
    ensures NormalModeFrom(s, 0) == NormalModeFrom(s, |Element(t, a) + (Element(u, b) + Element(w, c))|)
    ensures s.Memory()[|Element(t, a) + (Element(u, b) + Element(w, c))|..] == rest
  {
    hide Element;
    hide NormalModeFrom;
    assert s.Memory() == Element(t, a) + Element(u, b) + (Element(w, c) + rest);
    TwoPassed(s, t, a, u, b, Element(w, c) + rest);
    SkipElement(s, |Element(t, a) + Element(u, b)|, w, c, rest);
  }

  lemma DataReached(s: View, off: nat, acse: bytes, tail: bytes)
    requires off <= |s.Memory()| && s.Memory()[off..] == FullyEncoded(acse, 1) + tail
    ensures NormalModeFrom(s, off)
         == if off + Header(PdvSize(|acse|)) <= |s.seen| && PdvShown(|acse|, Announced(PdvSize(|acse|)))
            then Ok(Part(acse, Announced(|acse|), tail)) else Err
  {
    hide Element;
    hide ShortLengthAt;
    hide ParseFullyEncoded;
    hide PdvShown;
    hide PdvSize;
    hide Pdv;
    hide FullyEncoded;
    hide Cut;
    hide Part;
    PdvSizes(acse, 1);
    var pdv := Pdv(acse, 1);
    if off < |s.seen| {
      HeaderSeen(s, off, 0x61, pdv, tail);
      CutPart(s, off + Header(|pdv|), Announced(|pdv|), pdv, tail);
      FedYields(acse, 1, Announced(|pdv|), tail);
    }
  }

  function Normal(parameters: bytes, acse: bytes): bytes {
    parameters + FullyEncoded(acse, 1)
  }

  function NormalSize(k: nat, n: nat): nat {
    k + Sized(PdvSize(n))
  }

  /** `m` octets of the normal-mode parameters are shown. */
  predicate NormalShown(k: nat, n: nat, m: nat) {
    k + Header(PdvSize(n)) <= m && PdvShown(n, Announced(PdvSize(n)))
  }

  lemma NormalYields(parameters: bytes, acse: bytes, m: nat, tail: bytes)
    requires Parameters(parameters) && m <= |Normal(parameters, acse)|
    ensures NormalModeFrom(Part(Normal(parameters, acse), m, tail), 0)
         == if NormalShown(|parameters|, |acse|, m) then Ok(Part(acse, Announced(|acse|), tail)) else Err
  {
    hide NormalModeFrom;
    hide FullyEncoded;
    hide Part;
    var s := Part(Normal(parameters, acse), m, tail);
    assert Normal(parameters, acse) + tail == parameters + (FullyEncoded(acse, 1) + tail);
    ParametersPassed(s, parameters, FullyEncoded(acse, 1) + tail);
    DataReached(s, |parameters|, acse, tail);
  }

  function PpduBody(parameters: bytes, acse: bytes): bytes {
    MODE_SELECTOR + Element(0xA2, Normal(parameters, acse))
  }

  function PpduBodySize(k: nat, n: nat): nat {
    5 + Sized(NormalSize(k, n))
  }

  lemma PpduSizes(parameters: bytes, acse: bytes)
    ensures |Normal(parameters, acse)| == NormalSize(|parameters|, |acse|)
    ensures |PpduBody(parameters, acse)| == PpduBodySize(|parameters|, |acse|)
    ensures ConnectPpdu(parameters, acse) == Element(0x31, PpduBody(parameters, acse))
    ensures |ConnectPpdu(parameters, acse)| == Sized(PpduBodySize(|parameters|, |acse|))
  {
    hide Element;
    hide FullyEncoded;
    PdvSizes(acse, 1);
    ElementSize(0xA2, Normal(parameters, acse));
    ElementSize(0x31, PpduBody(parameters, acse));
  }

  /** `v` octets of the PPDU are shown. */
  predicate PpduShown(k: nat, n: nat, v: nat) {
    var body, normal := PpduBodySize(k, n), NormalSize(k, n);
    && Header(body) + Announced(body) <= v
    && 5 < Announced(body) && Header(body) + 5 + Header(normal) <= v
    && NormalShown(k, n, Announced(normal))
  }

  lemma ModeSkipped(s: View, off: nat, end: nat, tail: bytes)
    requires end <= |s.seen| && off <= |s.Memory()| && s.Memory()[off..] == MODE_SELECTOR + tail
    ensures PpduFrom(s, off, end) == PpduFrom(s, off + 5, end)
    ensures off + 5 <= |s.Memory()| && s.Memory()[off + 5..] == tail
  {
    hide Element;
    hide ShortLengthAt;
    hide NormalModeFrom;
    hide Cut;
    ModeIsElement();
    PastElement(s.Memory(), off, 0xA0, [0x80, 0x01, 0x01], tail);
    if off < end {
      HeaderSeen(s, off, 0xA0, [0x80, 0x01, 0x01], tail);
    }
  }

  lemma ModeIsElement()
    ensures MODE_SELECTOR == Element(0xA0, [0x80, 0x01, 0x01])
  {
  }

  predicate NormalBegins(k: nat, n: nat, shown: int) {
    Header(NormalSize(k, n)) <= shown && NormalShown(k, n, Announced(NormalSize(k, n)))
  }

  lemma NormalReached(s: View, off: nat, end: nat, parameters: bytes, acse: bytes, tail: bytes)
    requires Parameters(parameters) && end <= |s.seen|
    requires off <= |s.Memory()| && s.Memory()[off..] == Element(0xA2, Normal(parameters, acse)) + tail
    ensures PpduFrom(s, off, end)
         == if off < end && NormalBegins(|parameters|, |acse|, |s.seen| - off)
            then Ok(Part(acse, Announced(|acse|), tail)) else Err
  {
    hide Element;
    hide ShortLengthAt;
    hide NormalModeFrom;
    hide Normal;
    hide NormalSize;
    hide NormalShown;
    hide Cut;
    hide Part;
    PpduSizes(parameters, acse);
    var normal := Normal(parameters, acse);
    if off < end {
      HeaderSeen(s, off, 0xA2, normal, tail);
      CutPart(s, off + Header(|normal|), Announced(|normal|), normal, tail);
      NormalYields(parameters, acse, Announced(|normal|), tail);
    }
  }

  /** From the first `v` octets of a connect or accept PPDU its reader gets a slice of the ACSE PDU, or an error. */
  lemma PpduYields(parameters: bytes, acse: bytes, v: nat, tail: bytes)
    requires Parameters(parameters) && v <= |ConnectPpdu(parameters, acse)|
    ensures ParseConnectPDU(Part(ConnectPpdu(parameters, acse), v, tail))
         == if PpduShown(|parameters|, |acse|, v) then Ok(Part(acse, Announced(|acse|), tail)) else Err
  {
    hide Element;
    hide ShortLengthAt;
    hide PpduFrom;
    hide ConnectPpdu;
    hide PpduBody;
    hide PpduBodySize;
    hide NormalSize;
    hide NormalShown;
    hide Part;
    PpduSizes(parameters, acse);
    var body := PpduBody(parameters, acse);
    var s := Part(ConnectPpdu(parameters, acse), v, tail);
    if v > 0 {
      assert s.Memory()[0..] == s.Memory();
      HeaderSeen(s, 0, 0x31, body, tail);
      var start, end := Header(|body|), Header(|body|) + Announced(|body|);
      if end <= v {
        BodyParts(parameters, acse, tail);
        ModeSkipped(s, start, end, Element(0xA2, Normal(parameters, acse)) + tail);
        NormalReached(s, start + 5, end, parameters, acse, tail);
      }
    }
  }

  lemma BodyParts(parameters: bytes, acse: bytes, tail: bytes)
    ensures PpduBody(parameters, acse) + tail == MODE_SELECTOR + (Element(0xA2, Normal(parameters, acse)) + tail)
  {
    hide Element;
  }

  // ---- Session and presentation together ----

  /** Octets of a PPDU around an ACSE PDU of `n` octets. */
  function PpduSize(k: nat, n: nat): nat {
    Sized(PpduBodySize(k, n))
  }

  lemma ShownWhole(k: nat, n: nat)
    requires k <= 49 && PpduBodySize(k, n) < 0x1_0000
    ensures PpduShown(k, n, PpduSize(k, n)) && n < 0x1_0000
    ensures forall v: nat :: v < PpduSize(k, n) ==> !PpduShown(k, n, v)
  {
    hide PdvShown;
    SizesGrow(k, n);
    ShownAll(n);
  }

  lemma SizesGrow(k: nat, n: nat)
    ensures n <= PdvSize(n) <= NormalSize(k, n) <= PpduBodySize(k, n)
  {
  }

  lemma ShownAll(n: nat)
    requires PdvSize(n) < 0x1_0000
    ensures PdvShown(n, PdvSize(n))
  {
  }

  /** All lengths take three octets. */
  lemma LongSizes(k: nat, n: nat)
    requires n > 0xFF
    ensures PdvSize(n) == n + 11 && NormalSize(k, n) == k + n + 15 && PpduBodySize(k, n) == k + n + 24
    ensures PpduSize(k, n) == k + n + 28
  {
  }

  lemma LongShown(k: nat, n: nat, v: nat)
    requires n > 0xFF && k <= 49
    ensures PpduShown(k, n, v)
       <==> && 4 + (k + n + 24) % 0x1_0000 <= v
            && 5 < (k + n + 24) % 0x1_0000 && 13 <= v
            && k + 4 <= (k + n + 15) % 0x1_0000
            && 7 < (n + 11) % 0x1_0000 && 7 < 4 + (n + 7) % 0x1_0000 && 11 + n % 0x1_0000 <= (n + 11) % 0x1_0000
  {
    hide PdvShown;
    hide PdvSize;
    hide NormalSize;
    hide PpduBodySize;
    LongSizes(k, n);
    ShownLarge(n, (n + 11) % 0x1_0000);
  }

  /**
   * When the one-octet length of the session layer and the two-octet lengths of the presentation layer let an ACSE PDU
   * through: it fits, or its length modulo 65536 is so small that all of them wrap alike.
   */
  predicate Passes(room: nat, k: nat, n: nat) {
    || PpduSize(k, n) <= room
    || (n >= 0x1_0000 && k + n % 0x1_0000 + 28 <= room)
  }

  lemma PassesExactly(room: nat, k: nat, n: nat)
    requires k == 49 || k == 26
    requires 200 <= room < 256
    ensures PpduSize(k, n) % 256 <= room && PpduShown(k, n, PpduSize(k, n) % 256) <==> Passes(room, k, n)
  {
    hide PpduSize;
    hide PpduBodySize;
    hide PpduShown;
    var size := PpduSize(k, n);
    SizeOfPpdu(k, n);
    if PpduBodySize(k, n) < 0x1_0000 {
      ShownWhole(k, n);
      if size >= 256 {
        assert size % 256 < size;
      }
    } else {
      WrappedBody(k, n);
      WrappedShown(room, k, n);
    }
  }

  lemma SizeOfPpdu(k: nat, n: nat)
    ensures PpduBodySize(k, n) < PpduSize(k, n)
    ensures PpduBodySize(k, n) >= n
  {
  }

  lemma WrappedBody(k: nat, n: nat)
    requires k <= 49 && PpduBodySize(k, n) >= 0x1_0000
    ensures n >= 0x1_0000 - 73 && k + n + 24 >= 0x1_0000
  {
    if n > 0xFF {
      LongSizes(k, n);
    }
  }

  lemma WrappedShown(room: nat, k: nat, n: nat)
    requires k <= 49 && n >= 0x1_0000 - 73 && k + n + 24 >= 0x1_0000 && 200 <= room < 256
    ensures PpduSize(k, n) % 256 <= room && PpduShown(k, n, PpduSize(k, n) % 256)
       <==> n >= 0x1_0000 && k + n % 0x1_0000 + 28 <= room
    ensures PpduSize(k, n) > room
  {
    hide PpduShown;
    hide PpduSize;
    LongSizes(k, n);
    LongShown(k, n, PpduSize(k, n) % 256);
    WrappedSums(n, k);
    WrappedFits(room, k, n % 0x1_0000, n >= 0x1_0000);
  }

  /** `n + d` modulo 65536, from `n` modulo 65536. */
  function Wrapped(r: nat, d: nat): nat {
    if r + d < 0x1_0000 then r + d else r + d - 0x1_0000
  }

  lemma WrappedSums(n: nat, k: nat)
    requires k <= 49
    ensures var r := n % 0x1_0000;
            && (n + k + 28) % 256 == (r + k + 28) % 256
            && (n + k + 24) % 0x1_0000 == Wrapped(r, k + 24)
            && (n + k + 15) % 0x1_0000 == Wrapped(r, k + 15)
            && (n + 11) % 0x1_0000 == Wrapped(r, 11) && (n + 7) % 0x1_0000 == Wrapped(r, 7)
  {
    var q, r := n / 0x1_0000, n % 0x1_0000;
    assert n == q * 0x1_0000 + r;
    WrappedSum(q, r, k + 28);
    WrappedSum(q, r, k + 24);
    WrappedSum(q, r, k + 15);
    WrappedSum(q, r, 11);
    WrappedSum(q, r, 7);
  }

  /** The conditions of LongShown on the wrapped lengths. */
  lemma WrappedFits(room: nat, k: nat, r: nat, large: bool)
    requires k <= 49 && r < 0x1_0000 && 200 <= room < 256 && (!large ==> r >= 0x1_0000 - 73 && k + r + 24 >= 0x1_0000)
    ensures var v := (r + k + 28) % 256;
            (&& v <= room && 4 + Wrapped(r, k + 24) <= v
             && 5 < Wrapped(r, k + 24) && 13 <= v && k + 4 <= Wrapped(r, k + 15)
             && 7 < Wrapped(r, 11) && 7 < 4 + Wrapped(r, 7) && 11 + r <= Wrapped(r, 11))
            <==> large && k + r + 28 <= room
  {
  }

  lemma WrappedSum(q: nat, r: nat, d: nat)
    requires r < 0x1_0000 && d < 256
    ensures var n := q * 0x1_0000 + r;
            && (n + d) % 0x1_0000 == (if r + d < 0x1_0000 then r + d else r + d - 0x1_0000)
            && (n + d) % 256 == (r + d) % 256
  {
    assert q * 0x1_0000 + r + d == (q * 256) * 256 + (r + d);
  }
}
