/** Sends and receives over one byte stream, and what the size negotiation allows. */
module CotpStream {
  import opened Bytes
  import opened BerIntegers
  import opened Cotp
  import opened OctetParameters
  import opened Powers

  // ---- One packet ----

  lemma TpktRead(input: bytes, pos: nat, pdu: bytes)
    requires 4 + |pdu| < 0x1_0000 && At(input, pos, Tpkt(pdu))
    ensures pos <= |input| && TpktAt(input, pos) == (Ok(pdu), pos + 4 + |pdu|)
  {
    hide At;
    hide ToBE;
    hide FromBE;
    var field := ToBE(4 + |pdu|, 2);
    assert FromBE(field) == 4 + |pdu| by {
      PowersOf256();
      FromToBE(4 + |pdu|, 2);
    }
    assert Tpkt(pdu) == [0x03] + ([0x00] + (field + pdu));
    AtHead(input, pos, 0x03, [0x00] + (field + pdu));
    AtHead(input, pos + 1, 0x00, field + pdu);
    AtConcat(input, pos + 2, field, pdu);
    AtSlice(input, pos + 2, field);
    AtSlice(input, pos + 4, pdu);
  }

  lemma SegmentParsed(payload: bytes, eot: bool)
    ensures ParseDT(DataSegment(payload, eot)) == Ok((payload, eot))
  {
    assert DataSegment(payload, eot)[3..] == payload;
  }

  // ---- One TSDU ----

  /** Every segment of the payload fits the 16-bit length field of its packet. */
  predicate Framed(payload: bytes, chunk: int) {
    chunk > 0 && (|payload| <= 65528 || chunk <= 65528)
  }

  lemma {:induction false} PayloadReceived(input: bytes, pos: nat, payload: bytes, chunk: int, before: bytes)
    requires Framed(payload, chunk)
    requires Wire(payload, chunk).Ok? && At(input, pos, Wire(payload, chunk).value)
    ensures pos <= |input|
    ensures ReceiveFrom(input, pos, before) == (Ok(before + payload), pos + |Wire(payload, chunk).value|)
    decreases |payload|
  {
    hide At;
    hide TpktAt;
    hide Tpkt;
    hide DataSegment;
    hide ParseDT;
    if |payload| <= chunk {
      TpktRead(input, pos, DataSegment(payload, true));
      SegmentParsed(payload, true);
    } else {
      var first := Tpkt(DataSegment(payload[..chunk], false));
      AtConcat(input, pos, first, Wire(payload[chunk..], chunk).value);
      TpktRead(input, pos, DataSegment(payload[..chunk], false));
      SegmentParsed(payload[..chunk], false);
      PayloadReceived(input, pos + |first|, payload[chunk..], chunk, before + payload[..chunk]);
      assert before + payload[..chunk] + payload[chunk..] == before + payload;
    }
  }

  lemma {:induction false} WireExists(payload: bytes, chunk: int)
    ensures Wire(payload, chunk).Ok? <==> |payload| <= chunk || chunk > 0
    decreases |payload|
  {
    hide Tpkt;
    hide DataSegment;
    if |payload| > chunk && chunk > 0 {
      WireExists(payload[chunk..], chunk);
    }
  }

  // ---- Sequences of sends ----

  /** The stream after sending every payload in turn. */
  function Stream(payloads: seq<bytes>, chunk: int): Result<bytes> {
    if payloads == [] then Ok([])
    else
      var first :- Wire(payloads[0], chunk);
      Prefixed(first, Stream(payloads[1..], chunk))
  }

  /** As many receives as `n`, stopping at the first failure: results and final position. */
  function ReceiveMany(input: bytes, pos: nat, n: nat): (seq<bytes>, nat)
    requires pos <= |input|
    decreases n
  {
    if n == 0 then ([], pos)
    else
      var (r, next) := ReceiveFrom(input, pos, []);
      if !r.Ok? then ([], next)
      else
        var (rest, last) := ReceiveMany(input, next, n - 1);
        ([r.value] + rest, last)
  }

  lemma {:induction false} StreamReceived(input: bytes, pos: nat, payloads: seq<bytes>, chunk: int)
    requires forall p :: p in payloads ==> Framed(p, chunk)
    requires Stream(payloads, chunk).Ok? && At(input, pos, Stream(payloads, chunk).value)
    ensures pos <= |input|
    ensures ReceiveMany(input, pos, |payloads|) == (payloads, pos + |Stream(payloads, chunk).value|)
    decreases |payloads|
  {
    hide At;
    hide Wire;
    hide ReceiveFrom;
    AtInside(input, pos, Stream(payloads, chunk).value);
    if payloads == [] {
      assert ReceiveMany(input, pos, 0) == ([], pos);
    } else {
      var first := Wire(payloads[0], chunk).value;
      AtConcat(input, pos, first, Stream(payloads[1..], chunk).value);
      PayloadReceived(input, pos, payloads[0], chunk, []);
      assert [] + payloads[0] == payloads[0];
      StreamReceived(input, pos + |first|, payloads[1..], chunk);
      assert [payloads[0]] + payloads[1..] == payloads;
    }
  }

  lemma AtInside(buf: bytes, off: int, s: bytes)
    requires At(buf, off, s)
    ensures 0 <= off && off + |s| <= |buf|
  {
  }

  lemma {:induction false} StreamExists(payloads: seq<bytes>, chunk: int)
    requires chunk > 0
    ensures Stream(payloads, chunk).Ok?
  {
    hide Wire;
    if payloads != [] {
      WireExists(payloads[0], chunk);
      StreamExists(payloads[1..], chunk);
    }
  }

  lemma ChunkBounds(code: byte)
    ensures 2 <= code <= 15 ==> 0 < MaxChunk(code) <= 32765
    ensures 16 <= code <= 63 ==> 65533 <= MaxChunk(code)
    ensures code < 2 || code > 63 ==> MaxChunk(code) < 0
  {
    assert Pow2(0) == 1 && Pow2(1) == 2 && Pow2(2) == 4;
    assert Pow2(15) == 32768 && Pow2(16) == 65536 by {
      assert Pow2(8) == 256;
      Pow2Split(8, 8);
      Pow2Split(8, 7);
      assert Pow2(7) == 128;
    }
    if 2 <= code <= 15 {
      Pow2Monotone(2, code);
      Pow2Monotone(code, 15);
    } else if 16 <= code <= 63 {
      Pow2Monotone(16, code);
    }
  }

  /** Any sequence of sends is received in order, and the receiver consumes every octet. */
  lemma SendsAreReceived(payloads: seq<bytes>, code: byte)
    requires 2 <= code <= 15
    ensures Stream(payloads, MaxChunk(code)).Ok?
    ensures var stream := Stream(payloads, MaxChunk(code)).value;
            ReceiveMany(stream, 0, |payloads|) == (payloads, |stream|)
  {
    hide MaxChunk;
    ChunkBounds(code);
    StreamExists(payloads, MaxChunk(code));
    var stream := Stream(payloads, MaxChunk(code)).value;
    AtWhole(stream);
    StreamReceived(stream, 0, payloads, MaxChunk(code));
  }

  /** A payload sent at this size code comes back. */
  predicate Survives(code: byte, payload: bytes) {
    var wire := Wire(payload, MaxChunk(code));
    wire.Ok? && ReceiveFrom(wire.value, 0, []) == (Ok(payload), |wire.value|)
  }

  lemma FramedSurvives(code: byte, payload: bytes)
    requires Framed(payload, MaxChunk(code))
    ensures Survives(code, payload)
  {
    hide MaxChunk;
    var chunk := MaxChunk(code);
    WireExists(payload, chunk);
    AtWhole(Wire(payload, chunk).value);
    PayloadReceived(Wire(payload, chunk).value, 0, payload, chunk, []);
    assert [] + payload == payload;
  }

  lemma OverlongFails(code: byte, payload: bytes)
    requires MaxChunk(code) >= 65533 && |payload| == 65529
    ensures !Survives(code, payload)
  {
    hide MaxChunk;
    hide ToBE;
    hide FromBE;
    var pdu := DataSegment(payload, true);
    var wire := Tpkt(pdu);
    assert Wire(payload, MaxChunk(code)) == Ok(wire);
    assert wire[2..4] == ToBE(0, 2);
    FromToBEZero();
  }

  lemma FromToBEZero()
    ensures FromBE(ToBE(0, 2)) == 0
  {
    PowersOf256();
    FromToBE(0, 2);
  }

  /** Codes 2 to 15 are exactly those at which every payload survives. */
  lemma SizeCodesExactly(code: byte)
    ensures (forall payload :: Survives(code, payload)) <==> 2 <= code <= 15
  {
    hide MaxChunk;
    hide Survives;
    ChunkBounds(code);
    if 2 <= code <= 15 {
      forall payload ensures Survives(code, payload) {
        FramedSurvives(code, payload);
      }
    } else if code < 2 || code > 63 {
      EmptyFaults(code);
    } else {
      OverlongFails(code, seq(65529, _ => 0));
    }
  }

  lemma EmptyFaults(code: byte)
    requires MaxChunk(code) < 0
    ensures !Survives(code, [])
  {
  }

  // ---- Shape of the segments ----

  datatype Segment = Segment(data: bytes, eot: bool)

  function Segments(payload: bytes, chunk: nat): (segs: seq<Segment>)
    requires chunk > 0
    ensures |segs| >= 1
    decreases |payload|
  {
    if |payload| <= chunk then [Segment(payload, true)]
    else [Segment(payload[..chunk], false)] + Segments(payload[chunk..], chunk)
  }

  function Packets(segs: seq<Segment>): bytes {
    if segs == [] then [] else Tpkt(DataSegment(segs[0].data, segs[0].eot)) + Packets(segs[1..])
  }

  lemma {:induction false} WireIsPackets(payload: bytes, chunk: nat)
    requires chunk > 0
    ensures Wire(payload, chunk) == Ok(Packets(Segments(payload, chunk)))
    decreases |payload|
  {
    hide Tpkt;
    hide DataSegment;
    if |payload| > chunk {
      WireIsPackets(payload[chunk..], chunk);
      assert Segments(payload, chunk)[1..] == Segments(payload[chunk..], chunk);
    } else {
      var p := Tpkt(DataSegment(payload, true));
      assert Packets([]) == [];
      assert p + [] == p;
    }
  }

  function SegmentCount(n: nat, chunk: nat): nat
    requires chunk > 0
  {
    if n <= chunk then 1 else (n + chunk - 1) / chunk
  }

  lemma CountStep(n: nat, chunk: nat)
    requires chunk > 0 && n > chunk
    ensures SegmentCount(n, chunk) == 1 + SegmentCount(n - chunk, chunk)
  {
    assert (n + chunk - 1) / chunk == 1 + (n - 1) / chunk by {
      DivStep(n - 1, chunk);
    }
    if n - chunk <= chunk {
      DivStep(n - 1 - chunk, chunk);
      assert (n - 1 - chunk) / chunk == 0;
    } else {
      DivStep(n - 1 - chunk, chunk);
    }
  }

  /** Number, order, end marks and packet sizes of the segments of one payload. */
  lemma {:induction false} SegmentShape(payload: bytes, chunk: nat)
    requires chunk > 0
    ensures var segs := Segments(payload, chunk);
            && |segs| == SegmentCount(|payload|, chunk)
            && (forall i :: 0 <= i < |segs| ==> segs[i].eot == (i == |segs| - 1))
            && (forall i :: 0 <= i < |segs| ==> |segs[i].data| <= chunk)
            && (forall i :: 0 <= i < |segs| - 1 ==> |segs[i].data| == chunk)
            && Joined(segs) == payload
    decreases |payload|
  {
    var segs := Segments(payload, chunk);
    if |payload| <= chunk {
      assert Joined([]) == [];
      assert payload + [] == payload;
    } else {
      SegmentShape(payload[chunk..], chunk);
      CountStep(|payload|, chunk);
      var rest := Segments(payload[chunk..], chunk);
      assert segs[1..] == rest;
      assert forall i :: 1 <= i < |segs| ==> segs[i] == rest[i - 1];
      assert payload[..chunk] + payload[chunk..] == payload;
    }
  }

  function Joined(segs: seq<Segment>): bytes {
    if segs == [] then [] else segs[0].data + Joined(segs[1..])
  }

  /** Every packet stays within the negotiated size plus the TPKT header. */
  lemma PacketSize(payload: bytes, code: byte, chunk: nat, i: nat)
    requires 2 <= code <= 15 && chunk == MaxChunk(code) && chunk > 0
    requires i < |Segments(payload, chunk)|
    ensures var seg := Segments(payload, chunk)[i];
            |Tpkt(DataSegment(seg.data, seg.eot))| <= Pow2(code) + 4 < 0x1_0000
  {
    ChunkBounds(code);
    SegmentShape(payload, chunk);
  }

  // ---- Handshake ----

  predicate FitsHeader(options: bytes) {
    6 + |options| <= 255
  }

  /** Result of the negotiation: the smaller code, or the server's own when the client sends none. */
  function Negotiated(client: byte, server: byte): byte {
    if client != 0 && client < server then client else server
  }

  lemma SelectorsSkipped(buf: bytes, i: nat, li: nat, src: bytes, dst: bytes, code: byte)
    requires |src| < 256 && |dst| < 256
    requires i <= |buf| && buf[i..] == Options(0, src, dst)
    ensures ScanOptions(buf, i, li, code) == code
    decreases |src|
  {
    if |src| > 0 {
      assert buf[i] == OPT_SRC_TSEL && buf[i + 1] == |src|;
      assert buf[i + 2 + |src|..] == Options(0, [], dst);
      SelectorsSkipped(buf, i + 2 + |src|, li, [], dst, code);
    } else if |dst| > 0 {
      assert buf[i] == OPT_DST_TSEL && buf[i + 1] == |dst|;
      assert i + 2 + |dst| == |buf|;
    } else {
      assert i == |buf|;
    }
  }

  lemma RequestLayout(srcRef: uint16, code: byte, src: bytes, dst: bytes)
    requires FitsHeader(Options(code, src, dst))
    ensures var buf := ConnectPdu(PDU_CR, 0, srcRef, Options(code, src, dst));
            && |buf| >= 7 && buf[0] as int == 6 + |Options(code, src, dst)| && buf[1] == PDU_CR
            && buf[4..6] == ToBE(srcRef, 2) && buf[7..] == Options(code, src, dst)
  {
    hide Options;
    hide ToBE;
  }

  /** The server ends up with the client's reference and the negotiated size code. */
  lemma HandshakeNegotiates(srcRef: uint16, client: byte, src: bytes, dst: bytes, server: byte)
    requires FitsHeader(Options(client, src, dst))
    ensures ParseRequest(ConnectPdu(PDU_CR, 0, srcRef, Options(client, src, dst)), server)
         == Ok(Request(srcRef, Negotiated(client, server)))
  {
    hide ConnectPdu;
    hide FromBE;
    hide ToBE;
    var options := Options(client, src, dst);
    var buf := ConnectPdu(PDU_CR, 0, srcRef, options);
    RequestLayout(srcRef, client, src, dst);
    assert FromBE(ToBE(srcRef, 2)) == srcRef by {
      PowersOf256();
      FromToBE(srcRef, 2);
    }
    if client == 0 {
      SelectorsSkipped(buf, 7, buf[0], src, dst, server);
    } else {
      assert buf[7] == options[0] && buf[8] == options[1] && buf[9] == options[2];
      assert buf[10..] == options[3..] == Options(0, src, dst);
      SelectorsSkipped(buf, 10, buf[0], src, dst, Negotiated(client, server));
    }
  }

  /** Both directions work after a handshake if and only if both parties proposed usable sizes. */
  lemma HandshakeUsable(client: byte, server: byte)
    ensures (forall payload :: Survives(client, payload))
            && (forall payload :: Survives(Negotiated(client, server), payload))
        <==> 2 <= client <= 15 && 2 <= server
  {
    hide Survives;
    SizeCodesExactly(client);
    SizeCodesExactly(Negotiated(client, server));
  }

  // ---- What a peer reads that knows the standards ----

  function Sent(value: bytes): Option<bytes> {
    if value == [] then None else Some(value)
  }

  lemma OptionsSplit(code: byte, src: bytes, dst: bytes)
    requires |src| < 256 && |dst| < 256
    ensures Options(code, src, dst)
         == Parameter(0xC0, if code == 0 then [] else [code]) + (Parameter(0xC1, src) + Parameter(0xC2, dst))
  {
  }

  /**
   * A connection request or confirm, read by the standard: its own length, the code of its kind, the references of both
   * ends in place, class 0, and in its parameters the proposed size, the selector of the caller under 0xC1 and that of
   * the called under 0xC2, each as configured.
   */
  lemma ConnectByTheStandard(kind: byte, dstRef: uint16, srcRef: uint16, code: byte, src: bytes, dst: bytes)
    requires |Options(code, src, dst)| <= 249
    ensures var buf := ConnectPdu(kind, dstRef, srcRef, Options(code, src, dst));
            && |buf| == buf[0] as int + 1 && buf[1] == kind && buf[6] == 0
            && FromBE(buf[2..4]) == dstRef && FromBE(buf[4..6]) == srcRef
            && ParameterOf(buf, 7, 0xC0) == (if code == 0 then None else Some([code]))
            && ParameterOf(buf, 7, 0xC1) == Sent(src)
            && ParameterOf(buf, 7, 0xC2) == Sent(dst)
  {
    hide ToBE;
    hide FromBE;
    hide ParameterOf;
    hide Parameter;
    hide Options;
    OptionsFit(code, src, dst);
    OptionsSplit(code, src, dst);
    var size: bytes := if code == 0 then [] else [code];
    var a, b, c := Parameter(0xC0, size), Parameter(0xC1, src), Parameter(0xC2, dst);
    var buf := ConnectPdu(kind, dstRef, srcRef, Options(code, src, dst));
    PowersOf256();
    FromToBE(dstRef, 2);
    FromToBE(srcRef, 2);
    assert buf[2..4] == ToBE(dstRef, 2) && buf[4..6] == ToBE(srcRef, 2);
    assert buf[7..] == a + (b + c);
    assert c + [] == c;
    forall wanted: byte
      ensures ParameterOf(buf, 7, wanted)
           == if size != [] && wanted == 0xC0 then Some(size)
              else if src != [] && wanted == 0xC1 then Some(src)
              else if dst != [] && wanted == 0xC2 then Some(dst)
              else None
    {
      ParameterRead(buf, 7, 0xC0, size, b + c, wanted);
      ParameterRead(buf, 7 + |a|, 0xC1, src, c, wanted);
      ParameterRead(buf, 7 + |a| + |b|, 0xC2, dst, [], wanted);
      NoParameter(buf, wanted);
    }
  }

  lemma OptionsFit(code: byte, src: bytes, dst: bytes)
    requires |Options(code, src, dst)| <= 249
    ensures |src| < 256 && |dst| < 256
  {
  }

  /** The codes of the standards: a request, a confirm, a data segment with its end mark, the packet around them. */
  lemma KindsByTheStandard(payload: bytes, eot: bool)
    ensures PDU_CR == 0xE0 && PDU_CC == 0xD0
    ensures var segment := DataSegment(payload, eot);
            segment[0] == 2 && segment[1] == 0xF0 && segment[2] / 0x80 == (if eot then 1 else 0) && segment[3..] == payload
    ensures var packet := Tpkt(payload);
            packet[0] == 3 && packet[1] == 0 && FromBE(packet[2..4]) == (4 + |payload|) % 0x1_0000 && packet[4..] == payload
  {
    hide ToBE;
    hide FromBE;
    var length := (4 + |payload|) % 0x1_0000;
    assert Tpkt(payload)[2..4] == ToBE(length, 2);
    assert FromBE(ToBE(length, 2)) == length by {
      PowersOf256();
      FromToBE(length, 2);
    }
  }
}
