/** Confirmed MMS PDUs: request builders and response parsers of the client, and their server counterparts. */
module MmsPdus {
  import opened Bytes
  import opened BerIntegers
  import opened Ber
  import opened MmsValues

  const TAG_CONFIRMED_REQUEST: byte := 0xA0
  const TAG_CONFIRMED_RESPONSE: byte := 0xA1
  const TAG_CONFIRMED_ERROR: byte := 0xA2

  const SVC_GET_NAME_LIST := 1
  const SVC_READ := 4
  const SVC_WRITE := 5

  function UniversalTLV(tag: nat, constructed: bool, value: bytes): (out: bytes)
    ensures |out| >= 2 + |value|
  {
    TLVBytes(CLASS_UNIVERSAL, constructed, tag, value)
  }

  /** EncodeVisibleString, tag 0x1A. */
  function Visible(s: Text): bytes {
    UniversalTLV(0x1A, false, s)
  }

  // ---- The confirmed envelope ----

  /** encodeConfirmedRequest and buildConfirmedResponse. */
  function Confirmed(tag: byte, invokeID: uint32, svcPDU: bytes): bytes {
    Prim(tag, UniversalTLV(2, false, TwosComplement(invokeID)) + svcPDU)
  }

  function Service(svc: nat, content: bytes): bytes
    requires svc < 31
  {
    Prim(0xA0 + svc, content)
  }

  datatype Envelope = Envelope(invokeID: uint32, svcTag: int, content: bytes)

  /**
   * The body behind an expected PDU tag, sliced without a check; an empty buffer faults while its error is formatted.
   */
  function PduBody(expected: byte, buf: View): Result<bytes> {
    if |buf.seen| == 0 then Panic
    else if |buf.seen| < 2 || buf.seen[0] != expected then Err
    else
      var (length, offset) :- LengthAt(buf.seen, 1);
      var body :- Cut(buf, offset, length);
      Ok(body.seen)
  }

  /** ParseConfirmedRequest and ParseConfirmedResponse, which differ in the expected tag only. */
  function ParseConfirmed(expected: byte, buf: View): Result<Envelope> {
    var body :- PduBody(expected, buf);
    var (id, pos) :- TLVAt(body, 0);
    var invokeID :- DecodedUint32(id.value);
    if pos >= |body| then Ok(Envelope(invokeID, 0, []))
    else
      var (svc, _) :- TLVAt(body, pos);
      Ok(Envelope(invokeID, svc.tag, svc.value))
  }

  // ---- Variable specifications ----

  datatype VariableSpec = VariableSpec(domain: Text, item: Text)

  function EncodeSpec(spec: VariableSpec): bytes {
    var domainSpec := ContextTLV(1, true, Visible(spec.domain) + Visible(spec.item));
    UniversalTLV(0x10, true, ContextTLV(0, true, domainSpec))
  }

  function EncodeSpecs(specs: seq<VariableSpec>): bytes {
    if specs == [] then [] else EncodeSpec(specs[0]) + EncodeSpecs(specs[1..])
  }

  method EncodeSpecsLoop(specs: seq<VariableSpec>) returns (listBody: bytes)
    ensures listBody == EncodeSpecs(specs)
  {
    listBody := [];
    assert specs[0..] == specs;
    for i := 0 to |specs|
      invariant EncodeSpecs(specs) == listBody + EncodeSpecs(specs[i..])
    {
      assert specs[i..][1..] == specs[i + 1..];
      assert listBody + (EncodeSpec(specs[i]) + EncodeSpecs(specs[i + 1..]))
          == (listBody + EncodeSpec(specs[i])) + EncodeSpecs(specs[i + 1..]);
      listBody := listBody + EncodeSpec(specs[i]);
    }
  }

  predicate IsContext(t: TLV, tag: int) {
    t.class_ == CLASS_CONTEXT && t.tag == tag
  }

  predicate IsVisible(t: TLV) {
    t.class_ == CLASS_UNIVERSAL && t.tag == 0x1A
  }

  /** Loop over the members of a domain-specific name: the second string is the item only if a domain is set. */
  function DomainNameFrom(buf: bytes, pos: nat, spec: VariableSpec): VariableSpec
    decreases |buf| - pos
  {
    if pos >= |buf| then spec
    else
      match TLVAt(buf, pos)
      case Ok((inner, next)) =>
        var spec' :=
          if IsVisible(inner) then
            if spec.domain == [] then spec.(domain := inner.value) else spec.(item := inner.value)
          else if IsContext(inner, 0) then spec.(domain := inner.value)
          else if IsContext(inner, 1) then spec.(item := inner.value)
          else spec;
        DomainNameFrom(buf, next, spec')
      case _ => spec
  }

  method ParseDomainName(buf: bytes) returns (spec: VariableSpec)
    ensures spec == DomainNameFrom(buf, 0, VariableSpec([], []))
  {
    spec := VariableSpec([], []);
    var pos := 0;
    while pos < |buf|
      invariant 0 <= pos <= |buf|
      invariant DomainNameFrom(buf, 0, VariableSpec([], [])) == DomainNameFrom(buf, pos, spec)
      decreases |buf| - pos
    {
      var found := TLVAt(buf, pos);
      if found.IsFailure() {
        break;
      }
      var inner := found.value.0;
      pos := found.value.1;
      if IsVisible(inner) {
        if spec.domain == [] {
          spec := spec.(domain := inner.value);
        } else {
          spec := spec.(item := inner.value);
        }
      } else if IsContext(inner, 0) {
        spec := spec.(domain := inner.value);
      } else if IsContext(inner, 1) {
        spec := spec.(item := inner.value);
      }
    }
  }

  function ObjectNameOf(t: TLV): VariableSpec {
    if t.class_ != CLASS_CONTEXT then VariableSpec([], [])
    else if t.tag == 0 || t.tag == 2 then VariableSpec([], t.value)
    else if t.tag == 1 then DomainNameFrom(t.value, 0, VariableSpec([], []))
    else VariableSpec([], [])
  }

  function ParseVariableSpec(content: bytes): Result<VariableSpec> {
    var (outer, _) :- TLVAt(content, 0);
    if IsContext(outer, 0) && outer.constructed then
      var (name, _) :- TLVAt(outer.value, 0);
      Ok(ObjectNameOf(name))
    else Ok(ObjectNameOf(outer))
  }

  /** The list loop of ParseReadRequestContent and ParseWriteRequestContent; bad entries are skipped. */
  function SpecsFrom(buf: bytes, pos: nat, acc: seq<VariableSpec>): seq<VariableSpec>
    decreases |buf| - pos
  {
    if pos >= |buf| then acc
    else
      match TLVAt(buf, pos)
      case Ok((entry, next)) =>
        var spec := ParseVariableSpec(entry.value);
        SpecsFrom(buf, next, if spec.Ok? then acc + [spec.value] else acc)
      case _ => acc
  }

  method ParseSpecs(buf: bytes) returns (specs: seq<VariableSpec>)
    ensures specs == SpecsFrom(buf, 0, [])
  {
    specs := [];
    var pos := 0;
    while pos < |buf|
      invariant 0 <= pos <= |buf|
      invariant SpecsFrom(buf, 0, []) == SpecsFrom(buf, pos, specs)
      decreases |buf| - pos
    {
      var found := TLVAt(buf, pos);
      if found.IsFailure() {
        break;
      }
      pos := found.value.1;
      var spec := ParseVariableSpec(found.value.0.value);
      if spec.IsFailure() {
        continue;
      }
      specs := specs + [spec.value];
    }
  }

  // ---- Read ----

  function ReadRequestContent(specs: seq<VariableSpec>): bytes {
    ContextTLV(1, true, ContextTLV(0, true, EncodeSpecs(specs)))
  }

  function EncodeReadRequest(invokeID: uint32, specs: seq<VariableSpec>): bytes {
    Confirmed(TAG_CONFIRMED_REQUEST, invokeID, Service(SVC_READ, ReadRequestContent(specs)))
  }

  datatype ReadSpec =
    | VariableList(specs: seq<VariableSpec>)
    | NamedList(name: VariableSpec, isAASpecific: bool)

  function NamedListOf(t: TLV): ReadSpec {
    if t.class_ == CLASS_CONTEXT && t.tag == 1 then
      NamedList(NamedDomainFrom(t.value, 0, VariableSpec([], [])), false)
    else NamedList(ObjectNameOf(t), t.class_ == CLASS_CONTEXT && t.tag == 2)
  }

  /** The member loop of parseObjectName, which knows VisibleStrings only. */
  function NamedDomainFrom(buf: bytes, pos: nat, spec: VariableSpec): VariableSpec
    decreases |buf| - pos
  {
    if pos >= |buf| then spec
    else
      match TLVAt(buf, pos)
      case Ok((inner, next)) =>
        NamedDomainFrom(buf, next,
                        if !IsVisible(inner) then spec
                        else if spec.domain == [] then spec.(domain := inner.value)
                        else spec.(item := inner.value))
      case _ => spec
  }

  function ParseReadRequestContent(content: bytes): Result<ReadSpec> {
    var skip := if |content| > 0 && content[0] == 0x80 then TLVAt(content, 0) else Err;
    var pos := if skip.Ok? && IsContext(skip.value.0, 0) then skip.value.1 else 0;
    var (access, _) :- TLVAt(content, pos);
    if !IsContext(access, 1) then Err
    else
      var (inner, _) :- TLVAt(access.value, 0);
      if IsContext(inner, 0) && inner.constructed then Ok(VariableList(SpecsFrom(inner.value, 0, [])))
      else if IsContext(inner, 1) && inner.constructed then
        var (name, _) :- TLVAt(inner.value, 0);
        Ok(NamedListOf(name))
      else Err
  }

  datatype ReadResult = Success(value: Value) | Failure(code: int64)

  const OBJECT_ACCESS_DENIED := 3

  function EncodeResult(result: ReadResult): bytes {
    match result
    case Failure(code) => ContextTLV(1, false, TwosComplement(code))
    case Success(v) =>
      var enc := EncodeValue(v);
      if enc.Ok? then enc.value else Prim(TAG_FAILURE, [OBJECT_ACCESS_DENIED])
  }

  function EncodeResults(results: seq<ReadResult>): bytes {
    if results == [] then [] else EncodeResult(results[0]) + EncodeResults(results[1..])
  }

  method EncodeResultsLoop(results: seq<ReadResult>) returns (listBody: bytes)
    ensures listBody == EncodeResults(results)
  {
    listBody := [];
    assert results[0..] == results;
    for i := 0 to |results|
      invariant EncodeResults(results) == listBody + EncodeResults(results[i..])
    {
      assert results[i..][1..] == results[i + 1..];
      assert listBody + (EncodeResult(results[i]) + EncodeResults(results[i + 1..]))
          == (listBody + EncodeResult(results[i])) + EncodeResults(results[i + 1..]);
      listBody := listBody + EncodeResult(results[i]);
    }
  }

  function ReadResponseContent(results: seq<ReadResult>): bytes {
    ContextTLV(1, true, EncodeResults(results))
  }

  function BuildReadResponse(invokeID: uint32, results: seq<ReadResult>): bytes {
    Confirmed(TAG_CONFIRMED_RESPONSE, invokeID, Service(SVC_READ, ReadResponseContent(results)))
  }

  function ResultAt(buf: bytes, offset: nat): (r: Result<(ReadResult, nat)>)
    requires offset < |buf|
    ensures r.Ok? ==> offset < r.value.1 <= |buf|
  {
    if buf[offset] == 0x81 then
      var (tlv, next) :- TLVAt(buf, offset);
      var code := DecodedInteger(tlv.value);
      Ok((Failure(if code.Ok? then code.value else 0), next))
    else
      var (v, next) :- DecodeValue(buf, offset);
      Ok((Success(v), next))
  }

  function ResultsFrom(buf: bytes, offset: nat, acc: seq<ReadResult>): Result<seq<ReadResult>>
    decreases |buf| - offset
  {
    if offset >= |buf| then Ok(acc)
    else
      var (result, next) :- ResultAt(buf, offset);
      ResultsFrom(buf, next, acc + [result])
  }

  function ParseReadResponse(content: bytes): Result<seq<ReadResult>> {
    var (list, _) :- TLVAt(content, 0);
    if !IsContext(list, 1) then Err else ResultsFrom(list.value, 0, [])
  }

  method ParseReadResponseLoop(content: bytes) returns (r: Result<seq<ReadResult>>)
    ensures r == ParseReadResponse(content)
  {
    var list := TLVAt(content, 0);
    if list.IsFailure() {
      return list.PropagateFailure();
    }
    if !IsContext(list.value.0, 1) {
      return Err;
    }
    var buf := list.value.0.value;
    var results: seq<ReadResult> := [];
    var offset := 0;
    while offset < |buf|
      invariant 0 <= offset <= |buf|
      invariant ResultsFrom(buf, 0, []) == ResultsFrom(buf, offset, results)
      decreases |buf| - offset
    {
      var found := ResultAt(buf, offset);
      if found.IsFailure() {
        return found.PropagateFailure();
      }
      results := results + [found.value.0];
      offset := found.value.1;
    }
    return Ok(results);
  }

  // ---- Write ----

  function WriteRequestContent(specs: seq<VariableSpec>, data: bytes): bytes {
    ContextTLV(0, true, EncodeSpecs(specs)) + ContextTLV(0, true, data)
  }

  function EncodeWriteRequest(invokeID: uint32, specs: seq<VariableSpec>, values: seq<Value>): Result<bytes> {
    var data :- EncodeElements(values);
    Ok(Confirmed(TAG_CONFIRMED_REQUEST, invokeID, Service(SVC_WRITE, WriteRequestContent(specs, data))))
  }

  /** The data loop stops silently at the first value it cannot decode. */
  function ValuesFrom(buf: bytes, pos: nat, acc: seq<Value>): seq<Value>
    decreases |buf| - pos
  {
    if pos >= |buf| then acc
    else
      match DecodeValue(buf, pos)
      case Ok((v, next)) => ValuesFrom(buf, next, acc + [v])
      case _ => acc
  }

  datatype WriteRequest = WriteRequest(count: nat, specs: seq<VariableSpec>, values: seq<Value>)

  /** Both lists carry tag [0]; the first one holds the specifications, any later one data. */
  function WriteFrom(content: bytes, pos: nat, acc: WriteRequest): WriteRequest
    decreases |content| - pos
  {
    if pos >= |content| then acc
    else
      match TLVAt(content, pos)
      case Ok((tlv, next)) =>
        WriteFrom(content, next,
                  if !IsContext(tlv, 0) then acc
                  else if acc.count == 0 then acc.(count := 1, specs := SpecsFrom(tlv.value, 0, acc.specs))
                  else acc.(count := acc.count + 1, values := ValuesFrom(tlv.value, 0, acc.values)))
      case _ => acc
  }

  const EMPTY_WRITE := WriteRequest(0, [], [])

  method ParseWriteRequestContent(content: bytes) returns (specs: seq<VariableSpec>, values: seq<Value>)
    ensures var w := WriteFrom(content, 0, EMPTY_WRITE); specs == w.specs && values == w.values
  {
    hide TLVAt;
    hide SpecsFrom;
    hide ValuesFrom;
    specs, values := [], [];
    var pos, count0 := 0, 0;
    while pos < |content|
      invariant 0 <= pos <= |content| && 0 <= count0
      invariant count0 == 0 ==> specs == []
      invariant WriteFrom(content, 0, EMPTY_WRITE) == WriteFrom(content, pos, WriteRequest(count0, specs, values))
      decreases |content| - pos
    {
      var found := TLVAt(content, pos);
      if found.IsFailure() {
        break;
      }
      var tlv := found.value.0;
      pos := found.value.1;
      if IsContext(tlv, 0) {
        count0 := count0 + 1;
        if count0 == 1 {
          specs := ParseSpecs(tlv.value);
        } else {
          values := ParseValues(tlv.value, values);
        }
      }
    }
  }

  method ParseValues(buf: bytes, before: seq<Value>) returns (values: seq<Value>)
    ensures values == ValuesFrom(buf, 0, before)
  {
    values := before;
    var pos := 0;
    while pos < |buf|
      invariant 0 <= pos <= |buf|
      invariant ValuesFrom(buf, 0, before) == ValuesFrom(buf, pos, values)
      decreases |buf| - pos
    {
      var found := DecodeValue(buf, pos);
      if found.IsFailure() {
        break;
      }
      pos := found.value.1;
      values := values + [found.value.0];
    }
  }

  // ---- Errors ----

  /** errorToClassTag: the class tag and code octets chosen for an mms.Error. */
  function ErrorClass(mmsErr: int): (byte, byte) {
    match mmsErr
    case 82 => (0x87, 1)
    case 81 => (0x87, 2)
    case 83 => (0x87, 3)
    case 32 => (0x82, 3)
    case 34 => (0x82, 1)
    case _ => (0x84, 0)
  }

  function BuildErrorResponse(invokeID: uint32, mmsErr: int): bytes {
    var (classTag, code) := ErrorClass(mmsErr);
    var errorClass := ContextTLV(0, true, [classTag, 0x01, code]);
    Prim(TAG_CONFIRMED_ERROR, ContextTLV(0, false, TwosComplement(invokeID)) + ContextTLV(2, true, errorClass))
  }

  function ServiceErrorFrom(buf: bytes, pos: nat, mmsErr: int): int
    decreases |buf| - pos
  {
    if pos >= |buf| then mmsErr
    else
      match TLVAt(buf, pos)
      case Ok((inner, next)) =>
        var v := DecodedInteger(inner.value);
        ServiceErrorFrom(buf, next,
                         if inner.class_ == CLASS_CONTEXT
                         then Wrap64(Wrap64(inner.tag * 10) + if v.Ok? then v.value else 0)
                         else mmsErr)
      case _ => mmsErr
  }

  function ErrorFrom(body: bytes, pos: nat, invokeID: uint32, mmsErr: int): (uint32, int)
    decreases |body| - pos
  {
    if pos >= |body| then (invokeID, mmsErr)
    else
      match TLVAt(body, pos)
      case Ok((tlv, next)) =>
        if IsContext(tlv, 0) then
          var id := DecodedUint32(tlv.value);
          ErrorFrom(body, next, if id.Ok? then id.value else 0, mmsErr)
        else if IsContext(tlv, 1) then ErrorFrom(body, next, invokeID, ServiceErrorFrom(tlv.value, 0, mmsErr))
        else ErrorFrom(body, next, invokeID, mmsErr)
      case _ => (invokeID, mmsErr)
  }

  function ParseConfirmedError(buf: View): Result<(uint32, int)> {
    var body :- PduBody(TAG_CONFIRMED_ERROR, buf);
    Ok(ErrorFrom(body, 0, 0, 0))
  }

  // ---- GetNameList ----

  function NameListRequestContent(objectClass: int64, domain: Text, continueAfter: Text): bytes {
    ContextTLV(0, true, ContextTLV(0, false, TwosComplement(objectClass)))
    + (if domain != [] then ContextTLV(1, true, ContextTLV(1, false, domain))
       else ContextTLV(1, true, ContextTLV(0, false, [])))
    + (if continueAfter != [] then ContextTLV(5, false, continueAfter) else [])
  }

  function EncodeGetNameListRequest(invokeID: uint32, objectClass: int64, domain: Text, continueAfter: Text): bytes {
    Confirmed(TAG_CONFIRMED_REQUEST, invokeID,
              Service(SVC_GET_NAME_LIST, NameListRequestContent(objectClass, domain, continueAfter)))
  }

  datatype NameListRequest = NameListRequest(objectClass: int, scope: int, domain: Text, continueAfter: Text)

  function ScopeFrom(buf: bytes, pos: nat, req: NameListRequest): NameListRequest
    decreases |buf| - pos
  {
    if pos >= |buf| then req
    else
      match TLVAt(buf, pos)
      case Ok((inner, next)) =>
        ScopeFrom(buf, next,
                  if IsContext(inner, 0) then req.(scope := 0)
                  else if IsContext(inner, 1) then req.(scope := 1, domain := inner.value)
                  else if IsContext(inner, 2) then req.(scope := 2)
                  else req)
      case _ => req
  }

  function NameListRequestFrom(content: bytes, pos: nat, req: NameListRequest): NameListRequest
    decreases |content| - pos
  {
    if pos >= |content| then req
    else
      match TLVAt(content, pos)
      case Ok((tlv, next)) =>
        NameListRequestFrom(content, next,
                            if IsContext(tlv, 0) then WithClass(tlv.value, req)
                            else if IsContext(tlv, 1) then ScopeFrom(tlv.value, 0, req)
                            else if IsContext(tlv, 2) || IsContext(tlv, 5) then req.(continueAfter := tlv.value)
                            else req)
      case _ => req
  }

  function WithClass(buf: bytes, req: NameListRequest): NameListRequest {
    match TLVAt(buf, 0)
    case Ok((inner, _)) =>
      var v := DecodedInteger(inner.value);
      if IsContext(inner, 0) then req.(objectClass := if v.Ok? then v.value else 0) else req
    case _ => req
  }

  const NO_NAME_LIST_REQUEST := NameListRequest(-1, 0, [], [])

  function ParseGetNameListRequestContent(content: bytes): NameListRequest {
    NameListRequestFrom(content, 0, NO_NAME_LIST_REQUEST)
  }

  function EncodeNames(names: seq<Text>): bytes {
    if names == [] then [] else Visible(names[0]) + EncodeNames(names[1..])
  }

  method EncodeNamesLoop(names: seq<Text>) returns (identifiers: bytes)
    ensures identifiers == EncodeNames(names)
  {
    identifiers := [];
    assert names[0..] == names;
    for i := 0 to |names|
      invariant EncodeNames(names) == identifiers + EncodeNames(names[i..])
    {
      assert names[i..][1..] == names[i + 1..];
      assert identifiers + (Visible(names[i]) + EncodeNames(names[i + 1..]))
          == (identifiers + Visible(names[i])) + EncodeNames(names[i + 1..]);
      identifiers := identifiers + Visible(names[i]);
    }
  }

  function NameListContent(names: seq<Text>, moreFollows: bool): bytes {
    ContextTLV(0, true, EncodeNames(names)) + ContextTLV(1, false, [if moreFollows then 0xFF else 0x00])
  }

  function BuildGetNameListResponse(invokeID: uint32, names: seq<Text>, moreFollows: bool): bytes {
    Confirmed(TAG_CONFIRMED_RESPONSE, invokeID, Service(SVC_GET_NAME_LIST, NameListContent(names, moreFollows)))
  }

  datatype NameList = NameList(names: seq<Text>, moreFollows: bool)

  function NamesFrom(buf: bytes, offset: nat, acc: seq<Text>): seq<Text>
    decreases |buf| - offset
  {
    if offset >= |buf| then acc
    else
      match TLVAt(buf, offset)
      case Ok((inner, next)) => NamesFrom(buf, next, acc + [inner.value])
      case _ => acc
  }

  function NameListFrom(content: bytes, offset: nat, resp: NameList): Result<NameList>
    decreases |content| - offset
  {
    if offset >= |content| then Ok(resp)
    else
      var (tlv, next) :- TLVAt(content, offset);
      NameListFrom(content, next,
                   if IsContext(tlv, 0) then resp.(names := NamesFrom(tlv.value, 0, resp.names))
                   else if IsContext(tlv, 1) && |tlv.value| > 0 then resp.(moreFollows := tlv.value[0] != 0)
                   else resp)
  }

  method ParseGetNameListResponse(content: bytes) returns (r: Result<NameList>)
    ensures r == NameListFrom(content, 0, NameList([], false))
  {
    var resp := NameList([], false);
    var offset := 0;
    while offset < |content|
      invariant 0 <= offset <= |content|
      invariant NameListFrom(content, 0, NameList([], false)) == NameListFrom(content, offset, resp)
      decreases |content| - offset
    {
      var found := TLVAt(content, offset);
      if found.IsFailure() {
        return found.PropagateFailure();
      }
      var tlv := found.value.0;
      offset := found.value.1;
      if IsContext(tlv, 0) {
        var names := ParseNames(tlv.value, resp.names);
        resp := resp.(names := names);
      } else if IsContext(tlv, 1) && |tlv.value| > 0 {
        resp := resp.(moreFollows := tlv.value[0] != 0);
      }
    }
    return Ok(resp);
  }

  method ParseNames(buf: bytes, before: seq<Text>) returns (names: seq<Text>)
    ensures names == NamesFrom(buf, 0, before)
  {
    names := before;
    var offset := 0;
    while offset < |buf|
      invariant 0 <= offset <= |buf|
      invariant NamesFrom(buf, 0, before) == NamesFrom(buf, offset, names)
      decreases |buf| - offset
    {
      var found := TLVAt(buf, offset);
      if found.IsFailure() {
        break;
      }
      offset := found.value.1;
      names := names + [found.value.0.value];
    }
  }
}
