/** Received octets that make a reader fault, and those it reads past the end of its slice. */
module LayerFaults {
  import opened Bytes
  import opened Ber
  import opened MmsPdus
  import opened MmsPduRoundTrip
  import opened Layers
  import opened LayerStack
  import opened Acse

  // ---- ACSE ----

  lemma {:induction false} MmsInNeverFaults(buf: bytes, pos: nat)
    ensures !MmsIn(buf, pos).Panic?
    decreases |buf|, |buf| - pos
  {
    hide TLVAt;
    if pos < |buf| && TLVAt(buf, pos).Ok? {
      var (tlv, next) := TLVAt(buf, pos).value;
      MmsInNeverFaults(tlv.value, 0);
      MmsInNeverFaults(buf, next);
    }
  }

  lemma {:induction false} AarqFromNeverFaults(body: bytes, pos: nat)
    ensures !AarqFrom(body, pos).Panic?
    decreases |body| - pos
  {
    hide TLVAt;
    hide MmsIn;
    if pos < |body| {
      TLVNeverFaults(body, pos);
      if TLVAt(body, pos).Ok? {
        var (tlv, next) := TLVAt(body, pos).value;
        MmsInNeverFaults(tlv.value, 0);
        AarqFromNeverFaults(body, next);
      }
    }
  }

  /** An AARQ makes the server's parser fault if and only if it claims more than the slice has capacity for. */
  lemma AarqFaultsExactly(buf: View)
    ensures ParseAARQ(buf).Panic? <==> |buf.seen| >= 2 && buf.seen[0] == 0x60 && Overruns(buf)
  {
    hide PduBody;
    hide Overruns;
    hide AarqFrom;
    if |buf.seen| >= 2 {
      BodyFaultsExactly(0x60, buf);
      AarqOpened(buf);
      if PduBody(0x60, buf).Ok? {
        AarqFromNeverFaults(PduBody(0x60, buf).value, 0);
      }
    } else {
      ShortAarq(buf);
    }
  }

  lemma ShortAarq(buf: View)
    requires |buf.seen| < 2
    ensures ParseAARQ(buf) == Err
  {
  }

  /** Otherwise, where the length is shown, it takes whatever lies behind the slice for part of the AARQ. */
  lemma AarqReadsOn(buf: View)
    requires LengthAt(buf.seen, 1).Ok?
    ensures ParseAARQ(buf) == ParseAARQ(View(buf.Memory(), []))
  {
    hide PduBody;
    hide AarqFrom;
    hide LengthAt;
    LengthPosition(buf.seen);
    BodyReadsOn(0x60, buf);
    AarqOpened(buf);
    AarqOpened(View(buf.Memory(), []));
  }

  // ---- Presentation ----

  /** Content position and length of the first element with this tag, walking from `offset` to `end`. */
  function FirstElement(buf: bytes, offset: nat, end: nat, tag: byte): (r: Option<(nat, nat)>)
    requires end <= |buf|
    ensures r.Some? ==> offset < r.value.0 <= |buf|
    decreases |buf| - offset
  {
    if offset >= end || !ShortLengthAt(buf, offset + 1, false).Ok? then None
    else
      var (length, start) := ShortLengthAt(buf, offset + 1, false).value;
      if buf[offset] == tag then Some((start, length)) else FirstElement(buf, start + length, end, tag)
  }

  /** What the reader slices out of memory for that element. */
  function ElementAt(buf: View, offset: nat, end: nat, tag: byte): Result<View>
    requires end <= |buf.seen|
  {
    match FirstElement(buf.seen, offset, end, tag)
    case None => Err
    case Some((start, length)) => Cut(buf, start, length)
  }

  /** There is such an element, and it reaches past the capacity. */
  predicate ElementOverruns(buf: View, offset: nat, end: nat, tag: byte)
    requires end <= |buf.seen|
  {
    var e := FirstElement(buf.seen, offset, end, tag);
    e.Some? && e.value.0 + e.value.1 > |buf.Memory()|
  }

  lemma {:induction false} NormalReads(buf: View, offset: nat)
    ensures NormalModeFrom(buf, offset)
         == match ElementAt(buf, offset, |buf.seen|, 0x61)
            case Ok(fed) => ParseFullyEncoded(fed)
            case Err => Err
            case Panic => Panic
    decreases |buf.seen| - offset
  {
    hide ShortLengthAt;
    hide ParseFullyEncoded;
    hide Cut;
    ShortLengthNeverFaults(buf.seen, offset + 1, false);
    if offset < |buf.seen| && ShortLengthAt(buf.seen, offset + 1, false).Ok? {
      var (length, start) := ShortLengthAt(buf.seen, offset + 1, false).value;
      if buf.seen[offset] != 0x61 {
        NormalReads(buf, start + length);
      }
    }
  }

  lemma DataNeverFaults(fed: View)
    ensures !ParseFullyEncoded(fed).Panic?
  {
    hide ShortLengthAt;
    hide PdvFrom;
    ShortLengthNeverFaults(fed.seen, 1, false);
    if |fed.seen| > 0 && ShortLengthAt(fed.seen, 1, false).Ok? {
      var (length, start) := ShortLengthAt(fed.seen, 1, false).value;
      PdvNeverFaults(fed, start, if start + length > |fed.seen| then |fed.seen| else start + length);
    }
  }

  lemma {:induction false} PdvNeverFaults(buf: View, offset: nat, end: nat)
    requires end <= |buf.seen|
    ensures !PdvFrom(buf, offset, end).Panic?
    decreases |buf.seen| - offset
  {
    hide ShortLengthAt;
    if offset < end {
      ShortLengthNeverFaults(buf.seen, offset + 1, false);
      if ShortLengthAt(buf.seen, offset + 1, false).Ok? {
        var (length, start) := ShortLengthAt(buf.seen, offset + 1, false).value;
        if buf.seen[offset] != 0xA0 {
          PdvNeverFaults(buf, start + length, end);
        }
      }
    }
  }

  lemma CutFaults(buf: View, offset: nat, end: nat, tag: byte)
    requires end <= |buf.seen|
    ensures ElementAt(buf, offset, end, tag).Panic? <==> ElementOverruns(buf, offset, end, tag)
  {
    hide FirstElement;
  }

  lemma {:induction false} PpduReads(buf: View, offset: nat, end: nat)
    requires end <= |buf.seen|
    ensures PpduFrom(buf, offset, end)
         == match ElementAt(buf, offset, end, 0xA2)
            case Ok(nmp) => NormalModeFrom(nmp, 0)
            case Err => Err
            case Panic => Panic
    decreases |buf.seen| - offset
  {
    hide ShortLengthAt;
    hide NormalModeFrom;
    hide Cut;
    ShortLengthNeverFaults(buf.seen, offset + 1, false);
    if offset < end && ShortLengthAt(buf.seen, offset + 1, false).Ok? {
      var (length, start) := ShortLengthAt(buf.seen, offset + 1, false).value;
      if buf.seen[offset] != 0xA2 {
        PpduReads(buf, start + length, end);
      }
    }
  }

  /** Where a PPDU that keeps its own length has its elements. */
  predicate PpduEnds(buf: View, start: nat, end: nat) {
    && |buf.seen| > 0 && buf.seen[0] == 0x31 && ShortLengthAt(buf.seen, 1, false).Ok?
    && var (length, offset) := ShortLengthAt(buf.seen, 1, false).value;
       offset == start && offset + length == end <= |buf.seen|
  }

  lemma NoPpdu(buf: View)
    requires !exists start, end :: PpduEnds(buf, start, end)
    ensures ParseConnectPDU(buf) == Err
  {
    hide PpduFrom;
    hide ShortLengthAt;
    ShortLengthNeverFaults(buf.seen, 1, false);
    if |buf.seen| > 0 && buf.seen[0] == 0x31 && ShortLengthAt(buf.seen, 1, false).Ok? {
      var (length, offset) := ShortLengthAt(buf.seen, 1, false).value;
      assert !PpduEnds(buf, offset, offset + length);
    }
  }

  /**
   * What a connect or accept PPDU gives its reader: the normal-mode parameters are sliced out of memory, the user data
   * out of what lies in memory from there on, and neither slice is checked against the PPDU.
   */
  lemma PpduReadsOn(buf: View, start: nat, end: nat)
    requires PpduEnds(buf, start, end)
    ensures ParseConnectPDU(buf)
         == match ElementAt(buf, start, end, 0xA2)
            case Err => Err
            case Panic => Panic
            case Ok(nmp) =>
              (match ElementAt(nmp, 0, |nmp.seen|, 0x61)
               case Err => Err
               case Panic => Panic
               case Ok(fed) => ParseFullyEncoded(fed))
  {
    hide PpduFrom;
    hide ShortLengthAt;
    hide ParseFullyEncoded;
    hide ElementAt;
    PpduReads(buf, start, end);
    if ElementAt(buf, start, end, 0xA2).Ok? {
      NormalReads(ElementAt(buf, start, end, 0xA2).value, 0);
    }
  }

  /**
   * Exactly these connect and accept PPDUs make their reader fault: those whose own length holds, but whose normal-mode
   * parameters, or the user data in them, reach past the capacity of the received slice.
   */
  lemma PpduFaultsExactly(buf: View)
    ensures ParseConnectPDU(buf).Panic?
       <==> exists start, end :: PpduEnds(buf, start, end)
              && (ElementOverruns(buf, start, end, 0xA2)
                  || (ElementAt(buf, start, end, 0xA2).Ok?
                      && var nmp := ElementAt(buf, start, end, 0xA2).value;
                         ElementOverruns(nmp, 0, |nmp.seen|, 0x61)))
  {
    hide ParseConnectPDU;
    hide ParseFullyEncoded;
    hide ElementAt;
    hide ElementOverruns;
    if start, end :| PpduEnds(buf, start, end) {
      PpduReadsOn(buf, start, end);
      CutFaults(buf, start, end, 0xA2);
      if ElementAt(buf, start, end, 0xA2).Ok? {
        var nmp := ElementAt(buf, start, end, 0xA2).value;
        CutFaults(nmp, 0, |nmp.seen|, 0x61);
        if ElementAt(nmp, 0, |nmp.seen|, 0x61).Ok? {
          DataNeverFaults(ElementAt(nmp, 0, |nmp.seen|, 0x61).value);
        }
      }
    } else {
      NoPpdu(buf);
    }
  }

  // ---- Two received sequences ----

  const SHORT_RESPONSE: bytes := [TAG_CONFIRMED_RESPONSE, 0x05, 0x02, 0x01, 0x01]

  /** User data with two octets more in their PDV list than their payload takes; these follow the PDU in memory. */
  const TRAILING: bytes := Pdv(SHORT_RESPONSE, 3) + [0x00, 0x00]

  lemma ShortElement(tag: byte, content: bytes)
    requires |content| < 0x80
    ensures Element(tag, content) == [tag, |content|] + content
  {
  }

  lemma TrailingOctets()
    ensures TRAILING == [0x30, 0x0A, 0x02, 0x01, 0x03, 0xA0, 0x05] + SHORT_RESPONSE + [0x00, 0x00]
    ensures Element(0x61, TRAILING) == [0x61, 0x0E] + TRAILING
  {
    hide Element;
    ShortElement(0xA0, SHORT_RESPONSE);
    ShortElement(0x30, [0x02, 0x01, 0x03] + Element(0xA0, SHORT_RESPONSE));
    ShortElement(0x61, TRAILING);
  }

  lemma TrailingPdv(beyond: bytes)
    ensures ParseFullyEncoded(View(TRAILING, beyond)) == Ok(View(SHORT_RESPONSE, [0x00, 0x00] + beyond))
  {
    hide Element;
    hide ShortLengthAt;
    hide PdvFrom;
    hide Part;
    hide TRAILING;
    var s, rest := View(TRAILING, beyond), [0x00, 0x00] + beyond;
    var inner := [0x02, 0x01, 0x03] + Element(0xA0, SHORT_RESPONSE);
    TrailingOctets();
    ElementSize(0xA0, SHORT_RESPONSE);
    IdIsElement(3);
    assert s.Memory()[0..] == Element(0x30, inner) + rest by {
      assert TRAILING + beyond == Pdv(SHORT_RESPONSE, 3) + rest by {
        TrailingJoined(beyond);
      }
    }
    HeaderSeen(s, 0, 0x30, inner, rest);
    assert inner + rest == Element(0x02, [0x03]) + (Element(0xA0, SHORT_RESPONSE) + rest);
    PdvSkip(s, 2, 12, 3, Element(0xA0, SHORT_RESPONSE) + rest);
    PdvReached(s, 5, 12, SHORT_RESPONSE, rest);
    WholePart(SHORT_RESPONSE, rest);
  }

  lemma TrailingJoined(beyond: bytes)
    ensures TRAILING + beyond == Pdv(SHORT_RESPONSE, 3) + ([0x00, 0x00] + beyond)
  {
    hide Pdv;
  }

  lemma TrailingData(beyond: bytes)
    ensures UnwrapUserData(View(Element(0x61, TRAILING), beyond)) == Ok(View(SHORT_RESPONSE, [0x00, 0x00] + beyond))
  {
    hide Element;
    hide ShortLengthAt;
    hide ParseFullyEncoded;
    hide Cut;
    hide TRAILING;
    TrailingOctets();
    var s := View(Element(0x61, TRAILING), beyond);
    assert s.Memory()[0..] == Element(0x61, TRAILING) + beyond;
    HeaderSeen(s, 0, 0x61, TRAILING, beyond);
    CutPart(s, 2, 14, TRAILING, beyond);
    WholePart(TRAILING, beyond);
    TrailingPdv(beyond);
  }

  lemma HeaderUnwrapped(payload: bytes, beyond: bytes)
    ensures UnwrapData(View(WrapData(payload), beyond)) == Ok(View(payload, beyond))
  {
    assert WrapData(payload)[..4] == DATA_HEADER && WrapData(payload)[4..] == payload;
  }

  lemma ShortResponseRead(beyond: bytes)
    ensures ParseConfirmed(TAG_CONFIRMED_RESPONSE, View(SHORT_RESPONSE, [0x00, 0x00] + beyond)) == Ok(Envelope(1, 0, []))
  {
    hide Cut;
    hide TLVAt;
    hide BerIntegers.DecodedUint32;
    var s := View(SHORT_RESPONSE, [0x00, 0x00] + beyond);
    var body: bytes := [0x02, 0x01, 0x01, 0x00, 0x00];
    assert s.Memory()[2..] == body + beyond;
    CutPart(s, 2, 5, body, beyond);
    WholePart(body, beyond);
    ShortBody();
  }

  lemma ShortBody()
    ensures var body: bytes := [0x02, 0x01, 0x01, 0x00, 0x00];
            && TLVAt(body, 0) == Ok((TLV(CLASS_UNIVERSAL, false, 2, [1]), 3))
            && TLVAt(body, 3) == Ok((TLV(CLASS_UNIVERSAL, false, 0, []), 5))
    ensures BerIntegers.DecodedUint32([1]) == Ok(1)
  {
    var body: bytes := [0x02, 0x01, 0x01, 0x00, 0x00];
    assert body[2..3] == [1] && body[5..5] == [];
    FromBEOne(1);
  }

  /**
   * A response of five octets that claims seven, with two octets behind it: the parser takes them for its service and
   * reports a response to call 1.
   */
  lemma TrailingOctetsRead(beyond: bytes)
    ensures UnwrapData(View(WrapData(Element(0x61, TRAILING)), beyond)) == Ok(View(Element(0x61, TRAILING), beyond))
    ensures UnwrapUserData(View(Element(0x61, TRAILING), beyond)) == Ok(View(SHORT_RESPONSE, [0x00, 0x00] + beyond))
    ensures ParseConfirmed(TAG_CONFIRMED_RESPONSE, View(SHORT_RESPONSE, [0x00, 0x00] + beyond)) == Ok(Envelope(1, 0, []))
  {
    hide UnwrapData;
    hide UnwrapUserData;
    hide ParseConfirmed;
    hide TRAILING;
    HeaderUnwrapped(Element(0x61, TRAILING), beyond);
    TrailingData(beyond);
    ShortResponseRead(beyond);
  }

  /** A PPDU whose normal-mode parameters end behind the header of the user data. */
  function CutShort(acse: bytes): bytes {
    Element(0x31, MODE_SELECTOR + ([0xA2, 0x02] + FullyEncoded(acse, 1)))
  }

  /** The user data behind those parameters are read all the same. */
  lemma ParametersReadOn(acse: bytes, beyond: bytes)
    requires 0 < |acse| <= 60
    ensures ParseConnectPDU(View(CutShort(acse), beyond)) == Ok(View(acse, beyond))
  {
    hide Element;
    hide ShortLengthAt;
    hide PpduFrom;
    hide FullyEncoded;
    hide Pdv;
    hide Part;
    PdvSizes(acse, 1);
    var pdv := Pdv(acse, 1);
    var user, body := FullyEncoded(acse, 1), MODE_SELECTOR + ([0xA2, 0x02] + FullyEncoded(acse, 1));
    var s := View(CutShort(acse), beyond);
    ElementSize(0x31, body);
    assert s.Memory()[0..] == Element(0x31, body) + beyond;
    HeaderSeen(s, 0, 0x31, body, beyond);
    assert body + beyond == MODE_SELECTOR + ([0xA2, 0x02] + user + beyond);
    ModeSkipped(s, 2, |s.seen|, [0xA2, 0x02] + user + beyond);
    ParametersCut(s, 7, acse, beyond);
  }

  lemma ParametersCut(s: View, off: nat, acse: bytes, beyond: bytes)
    requires 0 < |acse| <= 60
    requires off + 4 <= |s.seen| && s.Memory()[off..] == [0xA2, 0x02] + FullyEncoded(acse, 1) + beyond
    ensures PpduFrom(s, off, |s.seen|) == Ok(View(acse, beyond))
  {
    hide Element;
    hide ShortLengthAt;
    hide NormalModeFrom;
    hide FullyEncoded;
    hide Pdv;
    hide Part;
    PdvSizes(acse, 1);
    var user, pdv := FullyEncoded(acse, 1), Pdv(acse, 1);
    ShortElement(0x61, pdv);
    var rest := user[2..] + beyond;
    ShortElement(0xA2, user[..2]);
    assert [0xA2, 0x02] + user + beyond == Element(0xA2, user[..2]) + rest;
    HeaderSeen(s, off, 0xA2, user[..2], rest);
    CutPart(s, off + 2, 2, user[..2], rest);
    WholePart(user[..2], rest);
    UserDataCut(user, acse, beyond);
  }

  lemma UserDataCut(user: bytes, acse: bytes, beyond: bytes)
    requires 0 < |acse| <= 60 && user == FullyEncoded(acse, 1) && |user| >= 2
    ensures NormalModeFrom(View(user[..2], user[2..] + beyond), 0) == Ok(View(acse, beyond))
  {
    hide Element;
    hide FullyEncoded;
    hide NormalModeFrom;
    hide Part;
    hide PdvShown;
    var s := View(user[..2], user[2..] + beyond);
    assert s.Memory()[0..] == FullyEncoded(acse, 1) + beyond;
    DataReached(s, 0, acse, beyond);
    ShownSmall(|acse|);
    PdvSizes(acse, 1);
    WholePart(acse, beyond);
  }
}
