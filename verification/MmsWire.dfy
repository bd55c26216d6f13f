/** What the program sends as MMS, read as trees of elements with the tags of ISO 9506-2. */
module MmsWire {
  import opened Bytes
  import opened BerIntegers
  import opened Ber
  import opened BerTrees
  import opened Floats
  import opened MmsValues
  import opened MmsValueRoundTrip
  import opened MmsPdus
  import opened MmsPduRoundTrip

  // ---- Data ----

  /** The element that carries a value. */
  function ValueTree(v: Value): (t: Tree)
    requires EncodeValue(v).Ok?
    decreases v
  {
    match v
    case Boolean(b) => Leaf(0x83, [if b then 0xFF else 0x00])
    case BitString(bits, size) => Leaf(0x84, BitContent(bits, size))
    case Integer(n) => Leaf(0x85, TwosComplement(n))
    case Unsigned(u) => Leaf(0x86, TwosComplement(u % TWO64))
    case Float(bits) => Leaf(0x87, FloatContent(bits))
    case OctetString(octets) => Leaf(0x89, octets)
    case VisibleString(text) => Leaf(0x8A, text)
    case BinaryTime(ms, days, width) => Leaf(0x8C, BinaryTimeContent(ms, days, width))
    case MmsString(utf8) => Leaf(0x90, utf8)
    case UtcTime(t) => Leaf(0x91, UTCContent(t))
    case Array(elements) => Node(0xA1, ValueTrees(elements))
    case Structure(members) => Node(0xA2, ValueTrees(members))
    case DataAccessError(code) => Leaf(0x80, [code % 256])
  }

  function ValueTrees(vs: seq<Value>): (ts: seq<Tree>)
    requires EncodeElements(vs).Ok?
    ensures |ts| == |vs|
    decreases vs
  {
    if vs == [] then [] else [ValueTree(vs[0])] + ValueTrees(vs[1..])
  }

  /** What a peer takes the contents of a leaf for. */
  predicate Means(content: bytes, v: Value) {
    match v
    case Boolean(b) => |content| == 1 && (content[0] != 0 <==> b)
    case BitString(bits, size) =>
      && |content| > 0 && content[0] < 8 && 8 * (|content| - 1) - content[0] == Abs(size)
      && forall i :: 0 <= i < |content| - 1 ==> content[1 + i] == if i < |bits| then bits[i] else 0
    case Integer(n) => Minimal(content) && SignedValue(content) == n
    case Unsigned(u) => Minimal(content) && SignedValue(content) == u % TWO64
    case Float(bits) => FloatNumber(content).Some? && FloatNumber(content) == NumberOf(bits, 64, 11)
    case OctetString(octets) => content == octets
    case VisibleString(text) => content == text
    case MmsString(utf8) => content == utf8
    case BinaryTime(ms, days, width) =>
      if width == 6 then |content| == 6 && FromBE(content[..4]) == ms && FromBE(content[4..]) == days
      else |content| == 4 && FromBE(content) == ms
    case UtcTime(t) =>
      && |content| == 8 && FromBE(content[..4]) == t.seconds && FromBE(content[4..7]) == t.fractions % 0x100_0000
      && (content[7] / 0x80 == 1 <==> t.leapKnown) && (content[7] / 0x40 % 2 == 1 <==> t.failure)
      && (content[7] / 0x20 % 2 == 1 <==> t.notSynchronized)
    case DataAccessError(code) => |content| == 1 && content[0] == code % 256
    case _ => false
  }

  /** The tree says what the value is, leaf by leaf. */
  predicate Carries(t: Tree, v: Value)
    decreases v
  {
    match v
    case Array(elements) => t.Node? && CarryAll(t.parts, elements)
    case Structure(members) => t.Node? && CarryAll(t.parts, members)
    case _ => t.Leaf? && Means(t.content, v)
  }

  predicate CarryAll(ts: seq<Tree>, vs: seq<Value>)
    decreases vs
  {
    if vs == [] then ts == [] else ts != [] && Carries(ts[0], vs[0]) && CarryAll(ts[1..], vs[1..])
  }

  lemma BitsMean(bits: bytes, size: int)
    ensures Means(BitContent(bits, size), BitString(bits, size))
  {
    var numBytes := (Abs(size) + 7) / 8;
    var content := BitContent(bits, size);
    assert content[1..] == Fit(bits, numBytes);
    assert forall i :: 0 <= i < numBytes ==> content[1 + i] == Fit(bits, numBytes)[i];
  }

  lemma TimesMean(t: UTCTime, ms: uint32, days: uint16, width: int)
    ensures Means(UTCContent(t), UtcTime(t))
    ensures Means(BinaryTimeContent(ms, days, width), BinaryTime(ms, days, width))
  {
    hide ToBE;
    hide FromBE;
    PowersOf256();
    FromToBE(t.seconds, 4);
    LowThreeOctets(t.fractions);
    FromToBE(ms, 4);
    FromToBE(days, 2);
    var content := UTCContent(t);
    assert content[..4] == ToBE(t.seconds, 4) && content[4..7] == ToBE(t.fractions, 3);
    assert width == 6 ==> (ToBE(ms, 4) + ToBE(days, 2))[..4] == ToBE(ms, 4) && (ToBE(ms, 4) + ToBE(days, 2))[4..] == ToBE(days, 2);
  }

  lemma NumbersMean(n: int64, u: int64, bits: bits64)
    ensures Means(TwosComplement(n), Integer(n))
    ensures Means(TwosComplement(u % TWO64), Unsigned(u))
    ensures Means(FloatContent(bits), Float(bits))
  {
    hide TwosComplement;
    hide FloatContent;
    hide NumberOf;
    TwosComplementMeaning(n);
    TwosComplementMeaning(u % TWO64);
    FloatDenotes(bits);
  }

  /** Every value is sent as the element of its kind, with octets that mean the value; nothing else surrounds it. */
  lemma {:induction false} ValueOnWire(v: Value)
    requires Fits(EncodeValue(v))
    ensures Reads(EncodeValue(v).value, [ValueTree(v)]) && Carries(ValueTree(v), v)
    decreases v
  {
    hide Reads;
    hide Prim;
    hide Means;
    hide BitContent;
    hide UTCContent;
    hide BinaryTimeContent;
    hide TwosComplement;
    hide FloatContent;
    match v {
      case Array(elements) =>
        ValuesOnWire(elements);
        NodeReads(0xA1, EncodeElements(elements).value, ValueTrees(elements));
      case Structure(members) =>
        ValuesOnWire(members);
        NodeReads(0xA2, EncodeElements(members).value, ValueTrees(members));
      case _ =>
        LeafOnWire(v);
    }
  }

  predicate Leafy(v: Value) {
    !v.Array? && !v.Structure?
  }

  lemma LeafOnWire(v: Value)
    requires Leafy(v) && Fits(EncodeValue(v))
    ensures Reads(EncodeValue(v).value, [ValueTree(v)]) && Means(ValueTree(v).content, v)
  {
    hide Reads;
    hide Prim;
    hide BitContent;
    hide UTCContent;
    hide BinaryTimeContent;
    hide TwosComplement;
    hide FloatContent;
    var t := ValueTree(v);
    assert EncodeValue(v).value == Prim(t.tag, t.content);
    LeafReads(t.tag, t.content);
    match v {
      case BitString(bits, size) => BitsMean(bits, size);
      case Integer(n) => NumbersMean(n, 0, 0);
      case Unsigned(u) => NumbersMean(0, u, 0);
      case Float(bits) => NumbersMean(0, 0, bits);
      case UtcTime(u) => TimesMean(u, 0, 0, 0);
      case BinaryTime(ms, days, width) => TimesMean(UTCTime(0, 0, 0, false, false, false), ms, days, width);
      case _ =>
    }
  }

  lemma {:induction false} ValuesOnWire(vs: seq<Value>)
    requires Fits(EncodeElements(vs))
    ensures Reads(EncodeElements(vs).value, ValueTrees(vs)) && CarryAll(ValueTrees(vs), vs)
    decreases vs
  {
    hide Reads;
    hide EncodeValue;
    hide Carries;
    if vs == [] {
      NothingReads();
      NothingEncoded();
    } else {
      EncodeElementsSplit(vs);
      ValueOnWire(vs[0]);
      ValuesOnWire(vs[1..]);
      ReadsConcat(EncodeValue(vs[0]).value, [ValueTree(vs[0])], EncodeElements(vs[1..]).value, ValueTrees(vs[1..]));
    }
  }

  // ---- The confirmed envelope ----

  /** A PDU of this tag around an invoke ID and the service of this number. */
  function ConfirmedTree(pdu: byte, invokeID: uint32, service: nat, parts: seq<Tree>): Tree
    requires service < 31
  {
    Node(pdu, [Leaf(0x02, TwosComplement(invokeID)), Node(0xA0 + service, parts)])
  }

  lemma ConfirmedOnWire(tag: byte, invokeID: uint32, svc: nat, content: bytes, parts: seq<Tree>)
    requires ShortTag(tag) && svc < 31 && Reads(content, parts) && |Confirmed(tag, invokeID, Service(svc, content))| < LIMIT
    ensures Reads(Confirmed(tag, invokeID, Service(svc, content)), [ConfirmedTree(tag, invokeID, svc, parts)])
  {
    hide Reads;
    hide Prim;
    hide UniversalTLV;
    hide TwosComplement;
    var id, service := UniversalTLV(2, false, TwosComplement(invokeID)), Service(svc, content);
    assert Confirmed(tag, invokeID, service) == Prim(tag, id + service);
    UniversalLeaf(2, TwosComplement(invokeID));
    NodeReads(0xA0 + svc, content, parts);
    PairReads(id, Leaf(0x02, TwosComplement(invokeID)), service, Node(0xA0 + svc, parts));
    NodeReads(tag, id + service, [Leaf(0x02, TwosComplement(invokeID)), Node(0xA0 + svc, parts)]);
  }

  // ---- Variable specifications ----

  function SpecTree(spec: VariableSpec): Tree {
    Node(0x30, [Node(0xA0, [Node(0xA1, [Leaf(0x1A, spec.domain), Leaf(0x1A, spec.item)])])])
  }

  function SpecTrees(specs: seq<VariableSpec>): seq<Tree> {
    if specs == [] then [] else [SpecTree(specs[0])] + SpecTrees(specs[1..])
  }

  lemma SpecOnWire(spec: VariableSpec)
    requires |EncodeSpec(spec)| < LIMIT
    ensures Reads(EncodeSpec(spec), [SpecTree(spec)])
  {
    hide Reads;
    hide ContextTLV;
    hide UniversalTLV;
    var names := Visible(spec.domain) + Visible(spec.item);
    UniversalLeaf(0x1A, spec.domain);
    UniversalLeaf(0x1A, spec.item);
    PairReads(Visible(spec.domain), Leaf(0x1A, spec.domain), Visible(spec.item), Leaf(0x1A, spec.item));
    ContextNode(1, names, [Leaf(0x1A, spec.domain), Leaf(0x1A, spec.item)]);
    ContextNode(0, ContextTLV(1, true, names), [Node(0xA1, [Leaf(0x1A, spec.domain), Leaf(0x1A, spec.item)])]);
    UniversalNode(0x10, ContextTLV(0, true, ContextTLV(1, true, names)),
                  [Node(0xA0, [Node(0xA1, [Leaf(0x1A, spec.domain), Leaf(0x1A, spec.item)])])]);
  }

  lemma {:induction false} SpecsOnWire(specs: seq<VariableSpec>)
    requires |EncodeSpecs(specs)| < LIMIT
    ensures Reads(EncodeSpecs(specs), SpecTrees(specs))
  {
    hide Reads;
    hide EncodeSpec;
    hide SpecTree;
    if specs == [] {
      NothingReads();
    } else {
      SpecOnWire(specs[0]);
      SpecsOnWire(specs[1..]);
      ReadsConcat(EncodeSpec(specs[0]), [SpecTree(specs[0])], EncodeSpecs(specs[1..]), SpecTrees(specs[1..]));
    }
  }

  // ---- Read ----

  /** A read request: service 4, the variables in order, each domain-specific. */
  lemma ReadRequestOnWire(invokeID: uint32, specs: seq<VariableSpec>)
    requires |EncodeReadRequest(invokeID, specs)| < LIMIT
    ensures Reads(EncodeReadRequest(invokeID, specs),
                  [ConfirmedTree(0xA0, invokeID, 4, [Node(0xA1, [Node(0xA0, SpecTrees(specs))])])])
  {
    hide Reads;
    hide ContextTLV;
    hide Confirmed;
    hide Service;
    EnvelopeHolds(TAG_CONFIRMED_REQUEST, invokeID, SVC_READ, ReadRequestContent(specs));
    SpecsOnWire(specs);
    ContextNode(0, EncodeSpecs(specs), SpecTrees(specs));
    ContextNode(1, ContextTLV(0, true, EncodeSpecs(specs)), [Node(0xA0, SpecTrees(specs))]);
    ConfirmedOnWire(TAG_CONFIRMED_REQUEST, invokeID, SVC_READ, ReadRequestContent(specs),
                    [Node(0xA1, [Node(0xA0, SpecTrees(specs))])]);
  }

  lemma EnvelopeHolds(tag: byte, invokeID: uint32, svc: nat, content: bytes)
    requires svc < 31
    ensures |content| < |Confirmed(tag, invokeID, Service(svc, content))|
  {
    hide TwosComplement;
  }

  /** Values that do not encode are replaced by the failure "object access denied". */
  function ResultTree(result: ReadResult): Tree {
    match result
    case Failure(code) => Leaf(0x81, TwosComplement(code))
    case Success(v) => if EncodeValue(v).Ok? then ValueTree(v) else Leaf(0x80, [3])
  }

  function ResultTrees(results: seq<ReadResult>): seq<Tree> {
    if results == [] then [] else [ResultTree(results[0])] + ResultTrees(results[1..])
  }

  lemma ResultOnWire(result: ReadResult)
    requires |EncodeResult(result)| < LIMIT
    ensures Reads(EncodeResult(result), [ResultTree(result)])
  {
    hide Reads;
    hide Prim;
    hide ContextTLV;
    hide TwosComplement;
    hide EncodeValue;
    match result
    case Failure(code) =>
      ContextLeaf(1, TwosComplement(code));
    case Success(v) =>
      if EncodeValue(v).Ok? {
        ValueOnWire(v);
      } else {
        LeafReads(0x80, [OBJECT_ACCESS_DENIED]);
      }
  }

  lemma {:induction false} ResultsOnWire(results: seq<ReadResult>)
    requires |EncodeResults(results)| < LIMIT
    ensures Reads(EncodeResults(results), ResultTrees(results))
  {
    hide Reads;
    hide EncodeResult;
    hide ResultTree;
    if results == [] {
      NothingReads();
    } else {
      ResultOnWire(results[0]);
      ResultsOnWire(results[1..]);
      ReadsConcat(EncodeResult(results[0]), [ResultTree(results[0])], EncodeResults(results[1..]), ResultTrees(results[1..]));
    }
  }

  /** A read response: the results in order. */
  lemma ReadResponseOnWire(invokeID: uint32, results: seq<ReadResult>)
    requires |BuildReadResponse(invokeID, results)| < LIMIT
    ensures Reads(BuildReadResponse(invokeID, results),
                  [ConfirmedTree(0xA1, invokeID, 4, [Node(0xA1, ResultTrees(results))])])
  {
    hide Reads;
    hide ContextTLV;
    hide Confirmed;
    hide Service;
    EnvelopeHolds(TAG_CONFIRMED_RESPONSE, invokeID, SVC_READ, ReadResponseContent(results));
    ResultsOnWire(results);
    ContextNode(1, EncodeResults(results), ResultTrees(results));
    ConfirmedOnWire(TAG_CONFIRMED_RESPONSE, invokeID, SVC_READ, ReadResponseContent(results),
                    [Node(0xA1, ResultTrees(results))]);
  }

  // ---- Write ----

  /** A write request: service 5, the variables, then the values. */
  lemma WriteRequestOnWire(invokeID: uint32, specs: seq<VariableSpec>, values: seq<Value>)
    requires Fits(EncodeWriteRequest(invokeID, specs, values))
    ensures EncodeElements(values).Ok?
    ensures Reads(EncodeWriteRequest(invokeID, specs, values).value,
                  [ConfirmedTree(0xA0, invokeID, 5, [Node(0xA0, SpecTrees(specs)), Node(0xA0, ValueTrees(values))])])
  {
    hide Reads;
    hide ContextTLV;
    hide Confirmed;
    hide Service;
    hide EncodeElements;
    hide EncodeSpecs;
    hide SpecTrees;
    hide ValueTrees;
    var data := EncodeElements(values).value;
    var vars, list := ContextTLV(0, true, EncodeSpecs(specs)), ContextTLV(0, true, data);
    EnvelopeHolds(TAG_CONFIRMED_REQUEST, invokeID, SVC_WRITE, WriteRequestContent(specs, data));
    SpecsOnWire(specs);
    ValuesOnWire(values);
    ContextNode(0, EncodeSpecs(specs), SpecTrees(specs));
    ContextNode(0, data, ValueTrees(values));
    PairReads(vars, Node(0xA0, SpecTrees(specs)), list, Node(0xA0, ValueTrees(values)));
    ConfirmedOnWire(TAG_CONFIRMED_REQUEST, invokeID, SVC_WRITE, WriteRequestContent(specs, data),
                    [Node(0xA0, SpecTrees(specs)), Node(0xA0, ValueTrees(values))]);
  }

  // ---- Errors ----

  /** The class of an error and its code there: 2 is a definition, 4 a service, 7 an access error. */
  function ErrorTree(mmsErr: int): Tree {
    if mmsErr == 82 then Leaf(0x87, [1])
    else if mmsErr == 81 then Leaf(0x87, [2])
    else if mmsErr == 83 then Leaf(0x87, [3])
    else if mmsErr == 34 then Leaf(0x82, [1])
    else if mmsErr == 32 then Leaf(0x82, [3])
    else Leaf(0x84, [0])
  }

  lemma ErrorOnWire(invokeID: uint32, mmsErr: int)
    ensures Reads(BuildErrorResponse(invokeID, mmsErr),
                  [Node(0xA2, [Leaf(0x80, TwosComplement(invokeID)), Node(0xA2, [Node(0xA0, [ErrorTree(mmsErr)])])])])
  {
    hide Reads;
    hide ContextTLV;
    hide Prim;
    hide TwosComplement;
    var (classTag, code) := ErrorClass(mmsErr);
    var class_ := Prim(classTag, [code]);
    ErrorContent(classTag, code);
    LeafReads(classTag, [code]);
    var inner := ContextTLV(0, true, class_);
    ContextNode(0, class_, [ErrorTree(mmsErr)]);
    ErrorSizes(invokeID, class_);
    ContextNode(2, inner, [Node(0xA0, [ErrorTree(mmsErr)])]);
    ContextLeaf(0, TwosComplement(invokeID));
    var id, err := ContextTLV(0, false, TwosComplement(invokeID)), ContextTLV(2, true, inner);
    PairReads(id, Leaf(0x80, TwosComplement(invokeID)), err, Node(0xA2, [Node(0xA0, [ErrorTree(mmsErr)])]));
    NodeReads(0xA2, id + err, [Leaf(0x80, TwosComplement(invokeID)), Node(0xA2, [Node(0xA0, [ErrorTree(mmsErr)])])]);
  }

  lemma ErrorContent(classTag: byte, code: byte)
    ensures Prim(classTag, [code]) == [classTag, 0x01, code]
  {
  }

  lemma ErrorSizes(invokeID: uint32, class_: bytes)
    requires |class_| == 3
    ensures var inner := ContextTLV(0, true, class_);
            |inner| < 100 && |ContextTLV(0, false, TwosComplement(invokeID)) + ContextTLV(2, true, inner)| < 1000
  {
    hide ContextTLV;
    hide TwosComplement;
    Uint32RoundTrip(invokeID);
    ContextSize(0, true, class_);
    ContextSize(2, true, ContextTLV(0, true, class_));
    ContextSize(0, false, TwosComplement(invokeID));
  }

  // ---- GetNameList ----

  /** The scope of a name request: a domain, or the whole of the server. */
  function ScopeTree(domain: Text): Tree {
    Node(0xA1, [if domain != [] then Leaf(0x81, domain) else Leaf(0x80, [])])
  }

  function NameRequestTrees(objectClass: int64, domain: Text, continueAfter: Text): seq<Tree> {
    [Node(0xA0, [Leaf(0x80, TwosComplement(objectClass))]), ScopeTree(domain)]
    + if continueAfter != [] then [Leaf(0x85, continueAfter)] else []
  }

  /** A name request: service 1, object class, scope, and the name to go on after. */
  lemma NameRequestOnWire(invokeID: uint32, objectClass: int64, domain: Text, continueAfter: Text)
    requires |EncodeGetNameListRequest(invokeID, objectClass, domain, continueAfter)| < LIMIT
    ensures Reads(EncodeGetNameListRequest(invokeID, objectClass, domain, continueAfter),
                  [ConfirmedTree(0xA0, invokeID, 1, NameRequestTrees(objectClass, domain, continueAfter))])
  {
    hide Reads;
    hide ContextTLV;
    hide Confirmed;
    hide Service;
    hide TwosComplement;
    var content := NameListRequestContent(objectClass, domain, continueAfter);
    EnvelopeHolds(TAG_CONFIRMED_REQUEST, invokeID, SVC_GET_NAME_LIST, content);
    NameRequestParts(objectClass, domain, continueAfter);
    ConfirmedOnWire(TAG_CONFIRMED_REQUEST, invokeID, SVC_GET_NAME_LIST, content,
                    NameRequestTrees(objectClass, domain, continueAfter));
  }

  lemma NameRequestParts(objectClass: int64, domain: Text, continueAfter: Text)
    requires |NameListRequestContent(objectClass, domain, continueAfter)| < LIMIT
    ensures Reads(NameListRequestContent(objectClass, domain, continueAfter),
                  NameRequestTrees(objectClass, domain, continueAfter))
  {
    hide Reads;
    hide ContextTLV;
    hide TwosComplement;
    var number := ContextTLV(0, false, TwosComplement(objectClass));
    ContextLeaf(0, TwosComplement(objectClass));
    ContextNode(0, number, [Leaf(0x80, TwosComplement(objectClass))]);
    var scope := if domain != [] then ContextTLV(1, false, domain) else ContextTLV(0, false, []);
    if domain != [] {
      ContextLeaf(1, domain);
    } else {
      ContextLeaf(0, []);
    }
    ContextNode(1, scope, ScopeTree(domain).parts);
    PairReads(ContextTLV(0, true, number), Node(0xA0, [Leaf(0x80, TwosComplement(objectClass))]),
              ContextTLV(1, true, scope), ScopeTree(domain));
    if continueAfter != [] {
      ContextLeaf(5, continueAfter);
    }
    AppendReads(ContextTLV(0, true, number) + ContextTLV(1, true, scope),
                [Node(0xA0, [Leaf(0x80, TwosComplement(objectClass))]), ScopeTree(domain)],
                continueAfter != [], ContextTLV(5, false, continueAfter), Leaf(0x85, continueAfter));
  }

  function NameTrees(names: seq<Text>): seq<Tree> {
    if names == [] then [] else [Leaf(0x1A, names[0])] + NameTrees(names[1..])
  }

  lemma {:induction false} NamesOnWire(names: seq<Text>)
    requires |EncodeNames(names)| < LIMIT
    ensures Reads(EncodeNames(names), NameTrees(names))
  {
    hide Reads;
    hide UniversalTLV;
    if names == [] {
      NothingReads();
    } else {
      UniversalLeaf(0x1A, names[0]);
      NamesOnWire(names[1..]);
      ReadsConcat(Visible(names[0]), [Leaf(0x1A, names[0])], EncodeNames(names[1..]), NameTrees(names[1..]));
    }
  }

  /** A name response: the names in order, and whether more follow. */
  lemma NameResponseOnWire(invokeID: uint32, names: seq<Text>, moreFollows: bool)
    requires |BuildGetNameListResponse(invokeID, names, moreFollows)| < LIMIT
    ensures Reads(BuildGetNameListResponse(invokeID, names, moreFollows),
                  [ConfirmedTree(0xA1, invokeID, 1,
                                 [Node(0xA0, NameTrees(names)), Leaf(0x81, [if moreFollows then 0xFF else 0x00])])])
  {
    hide Reads;
    hide ContextTLV;
    hide Confirmed;
    hide Service;
    var content := NameListContent(names, moreFollows);
    var more: bytes := [if moreFollows then 0xFF else 0x00];
    EnvelopeHolds(TAG_CONFIRMED_RESPONSE, invokeID, SVC_GET_NAME_LIST, content);
    NamesOnWire(names);
    ContextNode(0, EncodeNames(names), NameTrees(names));
    ContextLeaf(1, more);
    PairReads(ContextTLV(0, true, EncodeNames(names)), Node(0xA0, NameTrees(names)),
              ContextTLV(1, false, more), Leaf(0x81, more));
    ConfirmedOnWire(TAG_CONFIRMED_RESPONSE, invokeID, SVC_GET_NAME_LIST, content,
                    [Node(0xA0, NameTrees(names)), Leaf(0x81, more)]);
  }
}
