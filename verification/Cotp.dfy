/** COTP (ISO 8073, class 0) over TPKT (RFC 1006, section 6): segmentation, reassembly, size negotiation. */
module Cotp {
  import opened Bytes
  import opened BerIntegers
  import opened Powers

  const PDU_CR: byte := 0xE0
  const PDU_CC: byte := 0xD0
  const PDU_DT: byte := 0xF0
  const OPT_TPDU_SIZE: byte := 0xC0
  const OPT_SRC_TSEL: byte := 0xC1
  const OPT_DST_TSEL: byte := 0xC2

  // ---- TPKT framing ----

  /** sendRaw: the length field keeps 16 bits of the packet length. */
  function Tpkt(pdu: bytes): (out: bytes)
    ensures |out| == 4 + |pdu|
  {
    [0x03, 0x00] + ToBE((4 + |pdu|) % 0x1_0000, 2) + pdu
  }

  /** readTPKT on a byte stream: the outcome and the new read position. */
  function TpktAt(input: bytes, pos: nat): (r: (Result<bytes>, nat))
    requires pos <= |input|
    ensures r.1 <= |input|
    ensures r.0.Ok? ==> r.1 == pos + 4 + |r.0.value|
  {
    if pos + 4 > |input| then (Err, |input|)
    else
      var total := FromBE(input[pos + 2..pos + 4]);
      if input[pos] != 0x03 || total < 4 then (Err, pos + 4)
      else if pos + total > |input| then (Err, |input|)
      else (Ok(input[pos + 4..pos + total]), pos + total)
  }

  // ---- Data segments ----

  function DataSegment(payload: bytes, eot: bool): (out: bytes)
    ensures |out| == 3 + |payload|
  {
    [0x02, PDU_DT, if eot then 0x80 else 0x00] + payload
  }

  function ParseDT(buf: bytes): Result<(bytes, bool)> {
    if |buf| < 3 || buf[1] != PDU_DT || buf[0] + 1 > |buf| then Err
    else Ok((buf[buf[0] + 1..], buf[2] >= 128))
  }

  /** (1 << code) - 3 in 64-bit arithmetic. */
  function MaxChunk(code: byte): int {
    if code <= 63 then Pow2(code) - 3 else -3
  }

  /** What Send writes; a negative chunk size makes the slice expression fault. */
  function Wire(payload: bytes, chunk: int): Result<bytes>
    decreases |payload|
  {
    if |payload| <= chunk then Ok(Tpkt(DataSegment(payload, true)))
    else if chunk <= 0 then Panic
    else Prefixed(Tpkt(DataSegment(payload[..chunk], false)), Wire(payload[chunk..], chunk))
  }

  /** Receive from `pos` on, with the segments assembled so far. */
  function ReceiveFrom(input: bytes, pos: nat, tsdu: bytes): (r: (Result<bytes>, nat))
    requires pos <= |input|
    ensures r.1 <= |input|
    decreases |input| - pos
  {
    var (buf, next) := TpktAt(input, pos);
    if !buf.Ok? then (Err, next)
    else
      match ParseDT(buf.value)
      case Ok((payload, eot)) => if eot then (Ok(tsdu + payload), next) else ReceiveFrom(input, next, tsdu + payload)
      case _ => (Err, next)
  }

  // ---- Connection request and confirm ----

  function Options(code: byte, src: bytes, dst: bytes): bytes {
    (if code != 0 then [OPT_TPDU_SIZE, 0x01, code] else [])
    + (if |src| > 0 then [OPT_SRC_TSEL, |src| % 256] + src else [])
    + (if |dst| > 0 then [OPT_DST_TSEL, |dst| % 256] + dst else [])
  }

  /** buildCR and buildCC: fixed part of seven octets, then the options. */
  function ConnectPdu(kind: byte, dstRef: uint16, srcRef: uint16, options: bytes): bytes {
    [(6 + |options|) % 256, kind] + ToBE(dstRef, 2) + ToBE(srcRef, 2) + [0x00] + options
  }

  /** The option scan of parseCR: every well-formed size option may lower the code. */
  function ScanOptions(buf: bytes, i: nat, li: nat, code: byte): (c: byte)
    ensures c <= code
    decreases |buf| - i
  {
    if i >= li + 1 || i + 1 >= |buf| then code
    else
      var length := buf[i + 1];
      if i + 2 + length > |buf| then code
      else
        ScanOptions(buf, i + 2 + length, li,
                    if buf[i] == OPT_TPDU_SIZE && length == 1 && buf[i + 2] < code then buf[i + 2] else code)
  }

  datatype Request = Request(remoteRef: uint16, code: byte)

  function ParseRequest(buf: bytes, code: byte): Result<Request> {
    if |buf| < 7 || buf[1] != PDU_CR then Err
    else Ok(Request(FromBE(buf[4..6]) % 0x1_0000, ScanOptions(buf, 7, buf[0], code)))
  }

  predicate IsConfirm(buf: bytes) {
    |buf| >= 7 && buf[1] == PDU_CC
  }

  /** cotp.Conn; the TCP connection is the octets to read, a position in them, and the octets written. */
  class Conn {
    var code: byte
    const srcTSel: bytes
    const dstTSel: bytes
    const localRef: uint16
    var remoteRef: uint16
    const input: bytes
    var pos: nat
    var output: bytes

    ghost predicate Valid()
      reads this
    {
      pos <= |input|
    }

    constructor (code: byte, srcTSel: bytes, dstTSel: bytes, input: bytes)
      ensures Valid() && this.code == code && this.srcTSel == srcTSel && this.dstTSel == dstTSel
      ensures this.input == input && pos == 0 && output == [] && localRef == 1
    {
      this.code, this.srcTSel, this.dstTSel := code, srcTSel, dstTSel;
      localRef, remoteRef := 1, 0;
      this.input, pos, output := input, 0, [];
    }

    method SendRaw(pdu: bytes)
      modifies `output
      ensures output == old(output) + Tpkt(pdu)
    {
      var totalLen := 4 + |pdu|;
      var buf := new byte[totalLen](_ => 0);
      buf[0] := 0x03;
      buf[1] := 0x00;
      buf[2], buf[3] := totalLen / 256 % 256, totalLen % 256;
      forall i | 0 <= i < |pdu| {
        buf[4 + i] := pdu[i];
      }
      LengthField(totalLen);
      assert buf[..4] + buf[4..] == buf[..] && buf[4..] == pdu;
      assert buf[..4] == [0x03, 0x00] + ToBE(totalLen % 0x1_0000, 2);
      output := output + buf[..];
    }

    method ReadTPKT() returns (r: Result<bytes>)
      requires Valid()
      modifies `pos
      ensures Valid() && (r, pos) == TpktAt(input, old(pos))
    {
      if pos + 4 > |input| {
        pos := |input|;
        return Err;
      }
      var header := input[pos..pos + 4];
      pos := pos + 4;
      if header[0] != 0x03 {
        return Err;
      }
      assert header[2..4] == input[old(pos) + 2..old(pos) + 4];
      var totalLen := FromBE(header[2..4]);
      if totalLen < 4 {
        return Err;
      }
      var payloadLen := totalLen - 4;
      if pos + payloadLen > |input| {
        pos := |input|;
        return Err;
      }
      r := Ok(input[pos..pos + payloadLen]);
      pos := pos + payloadLen;
    }

    method Send(payload: bytes) returns (r: Result<()>)
      modifies `output
      ensures match Wire(payload, MaxChunk(code))
              case Ok(wire) => r == Ok(()) && output == old(output) + wire
              case _ => r == Panic && output == old(output)
    {
      hide Tpkt;
      hide DataSegment;
      var maxChunk := MaxChunk(code);
      var rest := payload;
      ghost var sent: bytes := [];
      PrefixedTwice([], [], Wire(payload, maxChunk));
      assert output == old(output) + sent;
      while true
        invariant output == old(output) + sent
        invariant Wire(payload, maxChunk) == Prefixed(sent, Wire(rest, maxChunk))
        invariant maxChunk <= 0 ==> sent == []
        decreases |rest|
      {
        if |rest| <= maxChunk {
          SendRaw(DataSegment(rest, true));
          assert output == old(output) + (sent + Tpkt(DataSegment(rest, true)));
          return Ok(());
        }
        if maxChunk <= 0 {
          return Panic;
        }
        var first := Tpkt(DataSegment(rest[..maxChunk], false));
        SendRaw(DataSegment(rest[..maxChunk], false));
        PrefixedTwice(sent, first, Wire(rest[maxChunk..], maxChunk));
        assert output == old(output) + (sent + first);
        sent := sent + first;
        rest := rest[maxChunk..];
      }
    }

    method Receive() returns (r: Result<bytes>)
      requires Valid()
      modifies `pos
      ensures Valid() && (r, pos) == ReceiveFrom(input, old(pos), [])
    {
      hide TpktAt;
      var tsdu: bytes := [];
      while true
        invariant Valid()
        invariant ReceiveFrom(input, old(pos), []) == ReceiveFrom(input, pos, tsdu)
        decreases |input| - pos
      {
        var buf := ReadTPKT();
        if buf.IsFailure() {
          return Err;
        }
        var segment := ParseDT(buf.value);
        if segment.IsFailure() {
          return Err;
        }
        tsdu := tsdu + segment.value.0;
        if segment.value.1 {
          return Ok(tsdu);
        }
      }
    }

    method ParseCR(buf: bytes) returns (ok: bool)
      modifies `code, `remoteRef
      ensures ok == ParseRequest(buf, old(code)).Ok?
      ensures ok ==> Request(remoteRef, code) == ParseRequest(buf, old(code)).value
      ensures !ok ==> code == old(code) && remoteRef == old(remoteRef)
    {
      if |buf| < 7 || buf[1] != PDU_CR {
        return false;
      }
      remoteRef := FromBE(buf[4..6]) % 0x1_0000;
      var li: nat := buf[0];
      var i := 7;
      while i < li + 1 && i + 1 < |buf|
        invariant 7 <= i
        invariant remoteRef == FromBE(buf[4..6]) % 0x1_0000
        invariant ScanOptions(buf, 7, li, old(code)) == ScanOptions(buf, i, li, code)
        decreases |buf| - i
      {
        var option := buf[i];
        var length: nat := buf[i + 1];
        if i + 2 + length > |buf| {
          break;
        }
        if option == OPT_TPDU_SIZE && length == 1 {
          var proposed := buf[i + 2];
          if proposed < code {
            code := proposed;
          }
        }
        i := i + 2 + length;
      }
      return true;
    }

    method Connect() returns (ok: bool)
      requires Valid()
      modifies `pos, `output
      ensures Valid()
      ensures output == old(output) + Tpkt(ConnectPdu(PDU_CR, 0, localRef, Options(code, srcTSel, dstTSel)))
      ensures ok == var (buf, _) := TpktAt(input, old(pos)); buf.Ok? && IsConfirm(buf.value)
    {
      SendRaw(ConnectPdu(PDU_CR, 0, localRef, Options(code, srcTSel, dstTSel)));
      var buf := ReadTPKT();
      ok := buf.Ok? && IsConfirm(buf.value);
    }

    method Accept() returns (ok: bool)
      requires Valid()
      modifies `pos, `output, `code, `remoteRef
      ensures Valid()
      ensures var buf := TpktAt(input, old(pos)).0;
              ok == (buf.Ok? && ParseRequest(buf.value, old(code)).Ok?)
      ensures ok ==> Request(remoteRef, code) == ParseRequest(TpktAt(input, old(pos)).0.value, old(code)).value
      ensures ok ==> output == old(output)
                               + Tpkt(ConnectPdu(PDU_CC, remoteRef, localRef, Options(code, srcTSel, dstTSel)))
      ensures !ok ==> output == old(output) && code == old(code)
    {
      var buf := ReadTPKT();
      if buf.IsFailure() {
        return false;
      }
      ok := ParseCR(buf.value);
      if ok {
        SendRaw(ConnectPdu(PDU_CC, remoteRef, localRef, Options(code, srcTSel, dstTSel)));
      }
    }
  }

  lemma LengthField(n: nat)
    ensures ToBE(n % 0x1_0000, 2) == [n / 256 % 256, n % 256]
  {
    var m := n % 0x1_0000;
    LowOctets(n);
    assert ToBE(m / 256, 0) == [] && ToBE(m / 256, 1) == [m / 256 % 256];
    assert ToBE(m, 2) == ToBE(m / 256, 1) + [m % 256];
  }

  lemma LowOctets(n: nat)
    ensures n % 0x1_0000 / 256 % 256 == n / 256 % 256 && n % 0x1_0000 % 256 == n % 256
  {
    var q, r := n / 0x1_0000, n % 0x1_0000;
    assert n == q * 0x1_0000 + r;
    assert n / 256 == q * 256 + r / 256;
  }
}
