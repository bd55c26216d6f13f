/** What each side of an MMS exchange recovers from the PDUs of the other. */
module MmsPduRoundTrip {
  import opened Bytes
  import opened BerIntegers
  import opened Ber
  import opened MmsValues
  import opened MmsValueRoundTrip
  import opened MmsPdus

  const LIMIT := 0x1_0000_0000

  // ---- Reading single elements ----

  lemma ContextRead(buf: bytes, offset: nat, tag: nat, constructed: bool, value: bytes)
    requires tag < 31 && |value| < LIMIT && At(buf, offset, ContextTLV(tag, constructed, value))
    ensures TLVAt(buf, offset) == Ok((TLV(CLASS_CONTEXT, constructed, tag, value), offset + |ContextTLV(tag, constructed, value)|))
    ensures offset + |ContextTLV(tag, constructed, value)| <= |buf|
  {
    TLVRoundTrip(buf, offset, CLASS_CONTEXT, constructed, tag, value);
  }

  lemma UniversalRead(buf: bytes, offset: nat, tag: nat, constructed: bool, value: bytes)
    requires tag < 31 && |value| < LIMIT && At(buf, offset, UniversalTLV(tag, constructed, value))
    ensures TLVAt(buf, offset)
         == Ok((TLV(CLASS_UNIVERSAL, constructed, tag, value), offset + |UniversalTLV(tag, constructed, value)|))
    ensures offset + |UniversalTLV(tag, constructed, value)| <= |buf|
  {
    TLVRoundTrip(buf, offset, CLASS_UNIVERSAL, constructed, tag, value);
  }

  /** A single octet in front of a length is the short tag form. */
  lemma PrimIsTLV(class_: int, constructed: bool, tag: nat, value: bytes)
    requires IsClass(class_) && tag < 31
    ensures Prim(LeadOctet(class_, constructed, tag), value) == TLVBytes(class_, constructed, tag, value)
  {
  }

  lemma LengthShown(buf: bytes, n: nat, k: nat)
    requires n <= |buf| && 1 + |LengthBytes(k)| <= |buf| && LengthAt(buf, 1) == Ok((k, 1 + |LengthBytes(k)|))
    ensures LengthAt(buf[..n], 1) == if 1 + |LengthBytes(k)| <= n then Ok((k, 1 + |LengthBytes(k)|)) else Err
  {
    hide LengthBytes;
    hide FromBE;
    hide ToBE;
    if 1 < n && 1 + |LengthBytes(k)| <= n {
      var m := buf[1] % 128;
      if buf[1] >= 128 {
        assert buf[..n][2..2 + m] == buf[2..2 + m];
      }
    }
  }

  /**
   * A PDU of which a slice shows the first `n` octets: the parser reads all of its body, shown or not, if and only if
   * the slice shows the length.
   */
  lemma PartBody(tag: byte, body: bytes, n: nat, beyond: bytes)
    requires |body| < LIMIT && n <= |Prim(tag, body)|
    ensures PduBody(tag, Part(Prim(tag, body), n, beyond))
         == if n == 0 then Panic else if n < |Prim(tag, body)| - |body| then Err else Ok(body)
  {
    hide At;
    hide LengthAt;
    hide LengthBytes;
    hide Part;
    hide Cut;
    var buf := Prim(tag, body);
    var k, v := |buf| - |body|, Part(buf, n, beyond);
    AtWhole(buf);
    PrimRead(buf, 0, tag, body);
    AtSlice(buf, k, body);
    PartShows(buf, n, beyond);
    LengthShown(buf, n, |body|);
    if k <= n {
      assert (buf + beyond)[k..] == body + beyond;
      CutPart(v, k, |body|, body, beyond);
      WholePart(body, beyond);
    }
  }

  lemma PartShows(s: bytes, n: nat, tail: bytes)
    requires n <= |s|
    ensures Part(s, n, tail).seen == s[..n]
  {
  }

  lemma WholeBody(tag: byte, body: bytes, beyond: bytes)
    requires |body| < LIMIT
    ensures PduBody(tag, View(Prim(tag, body), beyond)) == Ok(body)
  {
    hide PduBody;
    WholePart(Prim(tag, body), beyond);
    PartBody(tag, body, |Prim(tag, body)|, beyond);
  }

  // ---- The envelope carries the invoke ID ----

  lemma ConfirmedRoundTrip(tag: byte, invokeID: uint32, svc: nat, content: bytes, beyond: bytes)
    requires svc < 31 && |content| < LIMIT - 20
    ensures ParseConfirmed(tag, View(Confirmed(tag, invokeID, Service(svc, content)), beyond))
         == Ok(Envelope(invokeID, svc, content))
  {
    hide At;
    hide TLVAt;
    hide PduBody;
    hide DecodedUint32;
    hide TwosComplement;
    var idValue := TwosComplement(invokeID);
    var id, pdu := UniversalTLV(2, false, idValue), Service(svc, content);
    Uint32RoundTrip(invokeID);
    IdSize(idValue);
    PrimSize(0xA0 + svc, content);
    WholeBody(tag, id + pdu, beyond);
    AtWhole(id + pdu);
    AtConcat(id + pdu, 0, id, pdu);
    UniversalRead(id + pdu, 0, 2, false, idValue);
    PrimIsTLV(CLASS_CONTEXT, true, svc, content);
    ContextRead(id + pdu, |id|, svc, true, content);
  }

  lemma IdSize(value: bytes)
    requires |value| <= 5
    ensures |UniversalTLV(2, false, value)| == 2 + |value|
  {
  }

  lemma PrimSize(tag: byte, content: bytes)
    ensures |Prim(tag, content)| <= |content| + 6
  {
  }

  lemma ContextSize(tag: nat, constructed: bool, value: bytes)
    requires tag < 31
    ensures |ContextTLV(tag, constructed, value)| <= |value| + 6
  {
  }

  /** A ConfirmedError keeps the invoke ID; the error code never survives, whatever it is. */
  lemma ErrorRoundTrip(invokeID: uint32, mmsErr: int, beyond: bytes)
    ensures ParseConfirmedError(View(BuildErrorResponse(invokeID, mmsErr), beyond)) == Ok((invokeID, 0))
  {
    hide At;
    hide TLVAt;
    hide PduBody;
    hide DecodedUint32;
    hide TwosComplement;
    var (classTag, code) := ErrorClass(mmsErr);
    var errorClass := ContextTLV(0, true, [classTag, 0x01, code]);
    ContextSize(0, true, [classTag, 0x01, code]);
    ContextSize(2, true, errorClass);
    var idValue := TwosComplement(invokeID);
    Uint32RoundTrip(invokeID);
    ContextSize(0, false, idValue);
    var id, service := ContextTLV(0, false, idValue), ContextTLV(2, true, errorClass);
    var body := id + service;
    WholeBody(TAG_CONFIRMED_ERROR, body, beyond);
    AtWhole(body);
    AtConcat(body, 0, id, service);
    ContextRead(body, 0, 0, false, idValue);
    ContextRead(body, |id|, 2, true, errorClass);
    assert ErrorFrom(body, |id|, invokeID, 0) == ErrorFrom(body, |body|, invokeID, 0);
  }

  // ---- Where the unchecked slice of a parser ends up ----

  /** The length behind the tag is shown, and reaches past the capacity. */
  predicate Overruns(buf: View) {
    && LengthAt(buf.seen, 1).Ok?
    && LengthAt(buf.seen, 1).value.0 + LengthAt(buf.seen, 1).value.1 > |buf.Memory()|
  }

  /** The parsers fault exactly on an empty slice and on a PDU that claims more than the slice has capacity for. */
  lemma BodyFaultsExactly(expected: byte, buf: View)
    ensures PduBody(expected, buf).Panic?
       <==> buf.seen == [] || (|buf.seen| >= 2 && buf.seen[0] == expected && Overruns(buf))
  {
    hide LengthAt;
    LengthNeverFaults(buf.seen, 1);
  }

  lemma LengthInMemory(buf: View)
    requires LengthAt(buf.seen, 1).Ok?
    ensures LengthAt(buf.Memory(), 1) == LengthAt(buf.seen, 1)
  {
    assert buf.Memory()[..|buf.seen|] == buf.seen;
    LengthAtPrefix(buf.Memory(), |buf.seen|, 1);
  }

  /** Where the length is shown, the parser does not notice where the slice ends: it reads whatever lies behind. */
  lemma BodyReadsOn(expected: byte, buf: View)
    requires LengthAt(buf.seen, 1).Ok?
    ensures PduBody(expected, buf) == PduBody(expected, View(buf.Memory(), []))
    ensures PduBody(expected, buf).Ok? ==>
              var (length, start) := LengthAt(buf.seen, 1).value;
              && start + length <= |buf.Memory()|
              && PduBody(expected, buf) == Ok(buf.Memory()[start..start + length])
  {
    hide LengthAt;
    LengthInMemory(buf);
    assert View(buf.Memory(), []).Memory() == buf.Memory();
    LengthPosition(buf.seen);
  }

  lemma LengthPosition(buf: bytes)
    requires LengthAt(buf, 1).Ok?
    ensures |buf| >= 2
  {
  }

  /**
   * A received PDU faults ParseConfirmedRequest, ParseConfirmedResponse or ParseConfirmedError if and only if it is
   * empty, or of the expected tag with a length that reaches past the capacity; a length that reaches past the slice
   * only is not noticed.
   */
  lemma ConfirmedFaultsExactly(expected: byte, buf: View)
    ensures ParseConfirmed(expected, buf).Panic?
       <==> buf.seen == [] || (|buf.seen| >= 2 && buf.seen[0] == expected && Overruns(buf))
    ensures ParseConfirmedError(buf).Panic?
       <==> buf.seen == [] || (|buf.seen| >= 2 && buf.seen[0] == TAG_CONFIRMED_ERROR && Overruns(buf))
  {
    hide PduBody;
    hide Overruns;
    hide TLVAt;
    hide ErrorFrom;
    BodyFaultsExactly(expected, buf);
    BodyFaultsExactly(TAG_CONFIRMED_ERROR, buf);
    if PduBody(expected, buf).Ok? {
      var body := PduBody(expected, buf).value;
      TLVNeverFaults(body, 0);
      if TLVAt(body, 0).Ok? {
        TLVNeverFaults(body, TLVAt(body, 0).value.1);
      }
    }
  }

  /** The same for what is read: whenever the length is shown, the octets behind the slice belong to the PDU. */
  lemma ConfirmedReadsOn(expected: byte, buf: View)
    requires LengthAt(buf.seen, 1).Ok?
    ensures ParseConfirmed(expected, buf) == ParseConfirmed(expected, View(buf.Memory(), []))
    ensures ParseConfirmedError(buf) == ParseConfirmedError(View(buf.Memory(), []))
  {
    hide PduBody;
    hide TLVAt;
    hide ErrorFrom;
    BodyReadsOn(expected, buf);
    BodyReadsOn(TAG_CONFIRMED_ERROR, buf);
  }

  // ---- Variable specifications ----

  /** Names the server's parser sets apart: an empty domain in front of an item is taken for no domain at all. */
  predicate Recoverable(spec: VariableSpec) {
    spec.domain != [] || spec.item == []
  }

  /** What the server makes of a specification. */
  function Recovered(spec: VariableSpec): VariableSpec {
    if Recoverable(spec) then spec else VariableSpec(spec.item, [])
  }

  lemma DomainNameRead(domain: Text, item: Text)
    requires |Visible(domain) + Visible(item)| < LIMIT
    ensures DomainNameFrom(Visible(domain) + Visible(item), 0, VariableSpec([], []))
         == Recovered(VariableSpec(domain, item))
  {
    hide At;
    hide TLVAt;
    hide UniversalTLV;
    var buf := Visible(domain) + Visible(item);
    AtWhole(buf);
    AtConcat(buf, 0, Visible(domain), Visible(item));
    UniversalRead(buf, 0, 0x1A, false, domain);
    UniversalRead(buf, |Visible(domain)|, 0x1A, false, item);
    var spec := VariableSpec(domain, []);
    assert DomainNameFrom(buf, 0, VariableSpec([], [])) == DomainNameFrom(buf, |Visible(domain)|, spec);
    var spec' := if domain == [] then VariableSpec(item, []) else VariableSpec(domain, item);
    assert DomainNameFrom(buf, |Visible(domain)|, spec) == DomainNameFrom(buf, |buf|, spec');
  }

  lemma SpecRead(buf: bytes, offset: nat, spec: VariableSpec)
    requires |EncodeSpec(spec)| < LIMIT && At(buf, offset, EncodeSpec(spec))
    ensures var t := TLVAt(buf, offset);
            && t.Ok? && t.value.1 == offset + |EncodeSpec(spec)| <= |buf|
            && ParseVariableSpec(t.value.0.value) == Ok(Recovered(spec))
  {
    hide At;
    hide TLVAt;
    hide UniversalTLV;
    hide ContextTLV;
    hide DomainNameFrom;
    hide Visible;
    var names := Visible(spec.domain) + Visible(spec.item);
    var domainSpec := ContextTLV(1, true, names);
    var nameField := ContextTLV(0, true, domainSpec);
    UniversalRead(buf, offset, 0x10, true, nameField);
    AtWhole(nameField);
    ContextRead(nameField, 0, 0, true, domainSpec);
    AtWhole(domainSpec);
    ContextRead(domainSpec, 0, 1, true, names);
    DomainNameRead(spec.domain, spec.item);
  }

  function RecoveredAll(specs: seq<VariableSpec>): (rs: seq<VariableSpec>)
    ensures |rs| == |specs|
    ensures forall i :: 0 <= i < |specs| ==> rs[i] == Recovered(specs[i])
  {
    if specs == [] then [] else [Recovered(specs[0])] + RecoveredAll(specs[1..])
  }

  lemma {:induction false} SpecsRead(buf: bytes, offset: nat, specs: seq<VariableSpec>, acc: seq<VariableSpec>)
    requires |EncodeSpecs(specs)| < LIMIT && At(buf, offset, EncodeSpecs(specs))
    requires offset + |EncodeSpecs(specs)| == |buf|
    ensures SpecsFrom(buf, offset, acc) == acc + RecoveredAll(specs)
    decreases |specs|
  {
    hide At;
    hide TLVAt;
    hide EncodeSpec;
    hide ParseVariableSpec;
    hide Recovered;
    if specs == [] {
      assert acc + RecoveredAll(specs) == acc;
    } else {
      AtConcat(buf, offset, EncodeSpec(specs[0]), EncodeSpecs(specs[1..]));
      SpecRead(buf, offset, specs[0]);
      SpecsRead(buf, offset + |EncodeSpec(specs[0])|, specs[1..], acc + [Recovered(specs[0])]);
      assert acc + [Recovered(specs[0])] + RecoveredAll(specs[1..]) == acc + RecoveredAll(specs);
    }
  }

  lemma SpecListRead(specs: seq<VariableSpec>)
    requires |EncodeSpecs(specs)| < LIMIT
    ensures SpecsFrom(EncodeSpecs(specs), 0, []) == RecoveredAll(specs)
  {
    AtWhole(EncodeSpecs(specs));
    SpecsRead(EncodeSpecs(specs), 0, specs, []);
    assert [] + RecoveredAll(specs) == RecoveredAll(specs);
  }

  // ---- Read exchange ----

  lemma ReadContentRead(specs: seq<VariableSpec>)
    requires |ReadRequestContent(specs)| < LIMIT
    ensures ParseReadRequestContent(ReadRequestContent(specs)) == Ok(VariableList(RecoveredAll(specs)))
  {
    hide At;
    hide TLVAt;
    hide SpecsFrom;
    hide EncodeSpecs;
    hide TLVBytes;
    var content := ReadRequestContent(specs);
    var list := ContextTLV(0, true, EncodeSpecs(specs));
    AtWhole(content);
    ContextRead(content, 0, 1, true, list);
    PrimIsTLV(CLASS_CONTEXT, true, 1, list);
    AtWhole(list);
    ContextRead(list, 0, 0, true, EncodeSpecs(specs));
    SpecListRead(specs);
  }

  /** The server recovers the invoke ID and every name of a read request, in order. */
  lemma ReadRequestRoundTrip(invokeID: uint32, specs: seq<VariableSpec>, beyond: bytes)
    requires |ReadRequestContent(specs)| < LIMIT - 20
    ensures ParseConfirmed(TAG_CONFIRMED_REQUEST, View(EncodeReadRequest(invokeID, specs), beyond))
         == Ok(Envelope(invokeID, SVC_READ, ReadRequestContent(specs)))
    ensures ParseReadRequestContent(ReadRequestContent(specs)) == Ok(VariableList(RecoveredAll(specs)))
  {
    hide ParseConfirmed;
    hide Confirmed;
    hide ReadRequestContent;
    hide ParseReadRequestContent;
    ConfirmedRoundTrip(TAG_CONFIRMED_REQUEST, invokeID, SVC_READ, ReadRequestContent(specs), beyond);
    ReadContentRead(specs);
  }

  /** Names come back unchanged if and only if none has an item behind an empty domain. */
  lemma NamesRecoveredExactly(specs: seq<VariableSpec>)
    ensures (forall s :: s in specs ==> Recoverable(s)) <==> RecoveredAll(specs) == specs
  {
    if RecoveredAll(specs) == specs {
      forall s | s in specs ensures Recoverable(s) {
        var i :| 0 <= i < |specs| && specs[i] == s;
        assert RecoveredAll(specs)[i] == Recovered(specs[i]);
      }
    }
  }

  /** A result the client can read: a failure, or a value that encodes without a data-access error. */
  predicate Readable(result: ReadResult) {
    result.Failure? || (EncodeValue(result.value).Ok? && !HasError(result.value))
  }

  predicate AllReadable(results: seq<ReadResult>) {
    results == [] || (Readable(results[0]) && AllReadable(results[1..]))
  }

  function NormResult(result: ReadResult): ReadResult {
    if result.Failure? then result else Success(Norm(result.value))
  }

  function NormResults(results: seq<ReadResult>): seq<ReadResult> {
    if results == [] then [] else [NormResult(results[0])] + NormResults(results[1..])
  }

  /** No Data value starts with the octet that marks a failed access. */
  lemma FailureMarkDistinct(v: Value)
    requires EncodeValue(v).Ok?
    ensures EncodeValue(v).value[0] != 0x81
  {
    hide EncodeElements;
  }

  lemma FailureCodeRead(buf: bytes, offset: nat)
    requires At(buf, offset, Prim(TAG_FAILURE, [OBJECT_ACCESS_DENIED]))
    ensures offset < |buf| && buf[offset] == TAG_FAILURE && DecodeValue(buf, offset) == Err
  {
    PrimDecodes(buf, offset, TAG_FAILURE, [OBJECT_ACCESS_DENIED]);
    PrimRead(buf, offset, TAG_FAILURE, [OBJECT_ACCESS_DENIED]);
  }

  lemma FirstOctet(buf: bytes, offset: nat, s: bytes)
    requires At(buf, offset, s) && s != []
    ensures offset < |buf| && buf[offset] == s[0]
  {
    assert s == [s[0]] + s[1..];
    AtHead(buf, offset, s[0], s[1..]);
  }

  lemma ResultRead(buf: bytes, offset: nat, result: ReadResult)
    requires |EncodeResult(result)| < LIMIT && At(buf, offset, EncodeResult(result))
    requires |EncodeResult(result)| > 0
    ensures offset < |buf|
    ensures ResultAt(buf, offset)
         == if Readable(result) then Ok((NormResult(result), offset + |EncodeResult(result)|)) else Err
  {
    hide At;
    hide TLVAt;
    hide DecodeValue;
    hide EncodeValue;
    hide TwosComplement;
    hide DecodedInteger;
    hide ContextTLV;
    match result
    case Failure(code) =>
      FailureLead(code);
      FirstOctet(buf, offset, EncodeResult(result));
      ContextRead(buf, offset, 1, false, TwosComplement(code));
      IntegerRoundTrip(code);
    case Success(v) =>
      if EncodeValue(v).Ok? {
        FirstOctet(buf, offset, EncodeValue(v).value);
        FailureMarkDistinct(v);
        ValueRoundTrip(buf, offset, v);
      } else {
        FailureCodeRead(buf, offset);
      }
  }

  lemma FailureLead(code: int64)
    ensures ContextTLV(1, false, TwosComplement(code))[0] == 0x81
  {
    hide TwosComplement;
    PrimIsTLV(CLASS_CONTEXT, false, 1, TwosComplement(code));
  }

  lemma {:induction false} ResultsRead(buf: bytes, offset: nat, results: seq<ReadResult>, acc: seq<ReadResult>)
    requires |EncodeResults(results)| < LIMIT && At(buf, offset, EncodeResults(results))
    requires offset + |EncodeResults(results)| == |buf|
    ensures ResultsFrom(buf, offset, acc) == if AllReadable(results) then Ok(acc + NormResults(results)) else Err
    decreases |results|
  {
    hide At;
    hide ResultAt;
    hide EncodeResult;
    hide Readable;
    hide NormResult;
    if results == [] {
      assert acc + NormResults(results) == acc;
    } else {
      var first := EncodeResult(results[0]);
      ResultNonempty(results[0]);
      AtConcat(buf, offset, first, EncodeResults(results[1..]));
      ResultRead(buf, offset, results[0]);
      if Readable(results[0]) {
        ResultsRead(buf, offset + |first|, results[1..], acc + [NormResult(results[0])]);
        assert acc + [NormResult(results[0])] + NormResults(results[1..]) == acc + NormResults(results);
      }
    }
  }

  lemma ResultNonempty(result: ReadResult)
    ensures |EncodeResult(result)| > 0
  {
    hide EncodeValue;
  }

  /**
   * The client recovers every mix of failures and normalised values in order; it rejects the whole
   * response if and only if some successful result holds a value it cannot read.
   */
  lemma ReadResponseRoundTrip(invokeID: uint32, results: seq<ReadResult>, beyond: bytes)
    requires |ReadResponseContent(results)| < LIMIT - 20
    ensures ParseConfirmed(TAG_CONFIRMED_RESPONSE, View(BuildReadResponse(invokeID, results), beyond))
         == Ok(Envelope(invokeID, SVC_READ, ReadResponseContent(results)))
    ensures ParseReadResponse(ReadResponseContent(results))
         == if AllReadable(results) then Ok(NormResults(results)) else Err
  {
    hide At;
    hide TLVAt;
    hide ContextTLV;
    hide ResultsFrom;
    ConfirmedRoundTrip(TAG_CONFIRMED_RESPONSE, invokeID, SVC_READ, ReadResponseContent(results), beyond);
    var content, list := ReadResponseContent(results), EncodeResults(results);
    AtWhole(content);
    ContextRead(content, 0, 1, true, list);
    AtWhole(list);
    ResultsRead(list, 0, results, []);
    assert [] + NormResults(results) == NormResults(results);
  }

  // ---- Write exchange ----

  /** The values before the first one that holds a data-access error. */
  function Deliverable(vs: seq<Value>): seq<Value> {
    if vs == [] || HasError(vs[0]) then [] else [Norm(vs[0])] + Deliverable(vs[1..])
  }

  lemma {:induction false} DeliverableExactly(vs: seq<Value>)
    ensures |Deliverable(vs)| == |vs| <==> !AnyError(vs)
    ensures |Deliverable(vs)| <= |vs|
    ensures !AnyError(vs) ==> Deliverable(vs) == NormAll(vs)
  {
    if vs != [] && !HasError(vs[0]) {
      DeliverableExactly(vs[1..]);
    }
  }

  lemma EncodeElementsSplit(vs: seq<Value>)
    requires vs != [] && Fits(EncodeElements(vs))
    ensures Fits(EncodeValue(vs[0])) && Fits(EncodeElements(vs[1..]))
    ensures EncodeElements(vs).value == EncodeValue(vs[0]).value + EncodeElements(vs[1..]).value
  {
    hide EncodeValue;
  }

  lemma ValuesStep(buf: bytes, offset: nat, acc: seq<Value>)
    ensures offset >= |buf| || !DecodeValue(buf, offset).Ok? ==> ValuesFrom(buf, offset, acc) == acc
    ensures offset < |buf| && DecodeValue(buf, offset).Ok? ==>
              var (v, next) := DecodeValue(buf, offset).value;
              ValuesFrom(buf, offset, acc) == ValuesFrom(buf, next, acc + [v])
  {
    hide DecodeValue;
  }

  lemma DeliverableStep(vs: seq<Value>)
    ensures vs == [] || HasError(vs[0]) ==> Deliverable(vs) == []
    ensures vs != [] && !HasError(vs[0]) ==> Deliverable(vs) == [Norm(vs[0])] + Deliverable(vs[1..])
  {
    hide HasError;
    hide Norm;
  }

  lemma EncodedSize(v: Value)
    requires EncodeValue(v).Ok?
    ensures |EncodeValue(v).value| >= 2
  {
  }

  lemma {:induction false} ValuesRead(buf: bytes, offset: nat, vs: seq<Value>, acc: seq<Value>)
    requires Fits(EncodeElements(vs)) && At(buf, offset, EncodeElements(vs).value)
    requires offset + |EncodeElements(vs).value| == |buf|
    ensures ValuesFrom(buf, offset, acc) == acc + Deliverable(vs)
    decreases |vs|
  {
    hide At;
    hide EncodeValue;
    hide EncodeElements;
    hide DecodeValue;
    hide HasError;
    hide Norm;
    hide ValuesFrom;
    hide Deliverable;
    ValuesStep(buf, offset, acc);
    DeliverableStep(vs);
    if vs == [] {
      NothingEncoded();
      assert acc + Deliverable(vs) == acc;
    } else {
      EncodeElementsSplit(vs);
      var first, rest := EncodeValue(vs[0]).value, EncodeElements(vs[1..]).value;
      EncodedSize(vs[0]);
      AtConcat(buf, offset, first, rest);
      ValueRoundTrip(buf, offset, vs[0]);
      if HasError(vs[0]) {
        assert acc + Deliverable(vs) == acc;
      } else {
        ValuesRead(buf, offset + |first|, vs[1..], acc + [Norm(vs[0])]);
        assert acc + [Norm(vs[0])] + Deliverable(vs[1..]) == acc + Deliverable(vs);
      }
    }
  }

  lemma NothingEncoded()
    ensures EncodeElements([]) == Ok([])
  {
  }

  lemma WriteContentRead(specs: seq<VariableSpec>, values: seq<Value>)
    requires Fits(EncodeElements(values))
    requires |WriteRequestContent(specs, EncodeElements(values).value)| < LIMIT
    ensures WriteFrom(WriteRequestContent(specs, EncodeElements(values).value), 0, EMPTY_WRITE)
         == WriteRequest(2, RecoveredAll(specs), Deliverable(values))
  {
    hide At;
    hide TLVAt;
    hide ContextTLV;
    hide SpecsFrom;
    hide ValuesFrom;
    hide EncodeSpecs;
    hide EncodeElements;
    var names, data := EncodeSpecs(specs), EncodeElements(values).value;
    var a, b := ContextTLV(0, true, names), ContextTLV(0, true, data);
    var content := a + b;
    AtWhole(content);
    AtConcat(content, 0, a, b);
    ContextRead(content, 0, 0, true, names);
    ContextRead(content, |a|, 0, true, data);
    SpecListRead(specs);
    AtWhole(data);
    ValuesRead(data, 0, values, []);
    assert [] + Deliverable(values) == Deliverable(values);
    var first := WriteRequest(1, RecoveredAll(specs), []);
    assert WriteFrom(content, 0, EMPTY_WRITE) == WriteFrom(content, |a|, first);
    assert WriteFrom(content, |a|, first) == WriteFrom(content, |content|, WriteRequest(2, RecoveredAll(specs), Deliverable(values)));
  }

  /** The server recovers every name, and every value up to the first data-access error. */
  lemma WriteRequestRoundTrip(invokeID: uint32, specs: seq<VariableSpec>, values: seq<Value>, beyond: bytes)
    requires Fits(EncodeElements(values))
    requires |WriteRequestContent(specs, EncodeElements(values).value)| < LIMIT - 20
    ensures var content := WriteRequestContent(specs, EncodeElements(values).value);
            && EncodeWriteRequest(invokeID, specs, values).Ok?
            && ParseConfirmed(TAG_CONFIRMED_REQUEST, View(EncodeWriteRequest(invokeID, specs, values).value, beyond))
            == Ok(Envelope(invokeID, SVC_WRITE, content))
            && WriteFrom(content, 0, EMPTY_WRITE) == WriteRequest(2, RecoveredAll(specs), Deliverable(values))
  {
    hide Confirmed;
    hide ParseConfirmed;
    hide WriteRequestContent;
    var content := WriteRequestContent(specs, EncodeElements(values).value);
    ConfirmedRoundTrip(TAG_CONFIRMED_REQUEST, invokeID, SVC_WRITE, content, beyond);
    WriteContentRead(specs, values);
  }

  // ---- GetNameList exchange ----

  lemma ClassRead(objectClass: int64, req: NameListRequest)
    ensures WithClass(ContextTLV(0, false, TwosComplement(objectClass)), req) == req.(objectClass := objectClass)
  {
    hide At;
    hide TLVAt;
    hide ContextTLV;
    hide TwosComplement;
    hide DecodedInteger;
    var value := TwosComplement(objectClass);
    IntegerRoundTrip(objectClass);
    Int64Size(objectClass);
    var buf := ContextTLV(0, false, value);
    AtWhole(buf);
    ContextRead(buf, 0, 0, false, value);
  }

  lemma {:induction false} ContentSize(v: int, k: nat)
    requires -128 * Pow256(k) <= v < 128 * Pow256(k)
    ensures |TwosComplement(v)| <= k + 1
    decreases k
  {
    if !(-128 <= v < 128) {
      assert k > 0 && Pow256(k) == 256 * Pow256(k - 1);
      ContentSize(v / 256, k - 1);
    }
  }

  lemma Int64Size(v: int64)
    ensures |TwosComplement(v)| <= 9
  {
    hide TwosComplement;
    assert -128 * Pow256(8) <= v < 128 * Pow256(8) by {
      PowersOf256();
    }
    ContentSize(v, 8);
  }

  lemma ScopeRead(domain: Text, req: NameListRequest)
    requires |domain| < LIMIT - 20
    ensures domain != [] ==> ScopeFrom(ContextTLV(1, false, domain), 0, req) == req.(scope := 1, domain := domain)
    ensures ScopeFrom(ContextTLV(0, false, []), 0, req) == req.(scope := 0)
  {
    hide At;
    hide TLVAt;
    hide ContextTLV;
    var a, b := ContextTLV(1, false, domain), ContextTLV(0, false, []);
    AtWhole(a);
    AtWhole(b);
    ContextRead(a, 0, 1, false, domain);
    ContextRead(b, 0, 0, false, []);
    assert ScopeFrom(a, 0, req) == ScopeFrom(a, |a|, req.(scope := 1, domain := domain));
    assert ScopeFrom(b, 0, req) == ScopeFrom(b, |b|, req.(scope := 0));
  }

  function ExpectedRequest(objectClass: int64, domain: Text, continueAfter: Text): NameListRequest {
    NameListRequest(objectClass, if domain != [] then 1 else 0, domain, continueAfter)
  }

  lemma ContinueRead(content: bytes, offset: nat, continueAfter: Text, req: NameListRequest)
    requires |continueAfter| < LIMIT && req.continueAfter == []
    requires offset <= |content| && content[offset..] == if continueAfter != [] then ContextTLV(5, false, continueAfter) else []
    ensures NameListRequestFrom(content, offset, req) == req.(continueAfter := continueAfter)
  {
    hide TLVAt;
    hide ContextTLV;
    if continueAfter != [] {
      ContextRead(content, offset, 5, false, continueAfter);
      assert NameListRequestFrom(content, offset, req)
          == NameListRequestFrom(content, |content|, req.(continueAfter := continueAfter));
    }
  }

  lemma NameListContentRead(objectClass: int64, domain: Text, continueAfter: Text)
    requires |domain| < LIMIT - 20 && |continueAfter| < LIMIT
    ensures ParseGetNameListRequestContent(NameListRequestContent(objectClass, domain, continueAfter))
         == ExpectedRequest(objectClass, domain, continueAfter)
  {
    hide At;
    hide TLVAt;
    hide ContextTLV;
    hide TwosComplement;
    hide WithClass;
    hide ScopeFrom;
    var classValue := ContextTLV(0, false, TwosComplement(objectClass));
    var scopeValue := if domain != [] then ContextTLV(1, false, domain) else ContextTLV(0, false, []);
    var tail := if continueAfter != [] then ContextTLV(5, false, continueAfter) else [];
    var a, b := ContextTLV(0, true, classValue), ContextTLV(1, true, scopeValue);
    var content := a + b + tail;
    Int64Size(objectClass);
    ContextSize(0, false, TwosComplement(objectClass));
    ContextSize(1, false, domain);
    ContextSize(0, false, []);
    AtWhole(content);
    AtConcat(content, 0, a + b, tail);
    AtConcat(content, 0, a, b);
    ContextRead(content, 0, 0, true, classValue);
    ContextRead(content, |a|, 1, true, scopeValue);
    ClassRead(objectClass, NO_NAME_LIST_REQUEST);
    var req1 := NO_NAME_LIST_REQUEST.(objectClass := objectClass);
    ScopeRead(domain, req1);
    var req2 := ExpectedRequest(objectClass, domain, []);
    assert NameListRequestFrom(content, 0, NO_NAME_LIST_REQUEST) == NameListRequestFrom(content, |a|, req1);
    assert NameListRequestFrom(content, |a|, req1) == NameListRequestFrom(content, |a + b|, req2);
    assert content[|a + b|..] == tail;
    ContinueRead(content, |a + b|, continueAfter, req2);
  }

  lemma {:induction false} NamesRead(buf: bytes, offset: nat, names: seq<Text>, acc: seq<Text>)
    requires |EncodeNames(names)| < LIMIT && At(buf, offset, EncodeNames(names))
    requires offset + |EncodeNames(names)| == |buf|
    ensures NamesFrom(buf, offset, acc) == acc + names
    decreases |names|
  {
    hide At;
    hide TLVAt;
    hide UniversalTLV;
    if names == [] {
      assert acc + names == acc;
    } else {
      var first := Visible(names[0]);
      AtConcat(buf, offset, first, EncodeNames(names[1..]));
      UniversalRead(buf, offset, 0x1A, false, names[0]);
      NamesRead(buf, offset + |first|, names[1..], acc + [names[0]]);
      assert acc + [names[0]] + names[1..] == acc + names;
    }
  }

  lemma NameListRead(names: seq<Text>, moreFollows: bool)
    requires |EncodeNames(names)| < LIMIT - 20
    ensures NameListFrom(NameListContent(names, moreFollows), 0, NameList([], false)) == Ok(NameList(names, moreFollows))
  {
    hide At;
    hide TLVAt;
    hide ContextTLV;
    hide EncodeNames;
    hide NamesFrom;
    var list := EncodeNames(names);
    var flag := [if moreFollows then 0xFF else 0x00];
    var a, b := ContextTLV(0, true, list), ContextTLV(1, false, flag);
    var content := a + b;
    AtWhole(content);
    AtConcat(content, 0, a, b);
    ContextRead(content, 0, 0, true, list);
    ContextRead(content, |a|, 1, false, flag);
    AtWhole(list);
    NamesRead(list, 0, names, []);
    assert [] + names == names;
    assert NameListFrom(content, 0, NameList([], false)) == NameListFrom(content, |a|, NameList(names, false));
    assert NameListFrom(content, |a|, NameList(names, false)) == NameListFrom(content, |content|, NameList(names, moreFollows));
  }
}
