/** What the program sends below ACSE, read by the standards: session and presentation. */
module LayerWire {
  import opened Bytes
  import opened BerTrees
  import opened OctetParameters
  import opened MmsValues
  import opened Layers
  import opened LayerStack

  // ---- Session ----

  const CONNECT_ITEM: bytes := [0x13, 0x01, 0x00, 0x16, 0x01, 0x02]

  lemma ItemParameters()
    ensures ParameterOf(CONNECT_ITEM, 0, 0x13) == Some([0x00]) && ParameterOf(CONNECT_ITEM, 0, 0x16) == Some([0x02])
    ensures ACCEPT_ITEM == Parameter(0x05, CONNECT_ITEM) + Parameter(0x14, [0x00, 0x02])
  {
    assert CONNECT_ITEM[0..] == [0x13, 0x01] + [0x00] + [0x16, 0x01, 0x02];
    ParameterStep(CONNECT_ITEM, 0, 0x13, [0x00], [0x16, 0x01, 0x02], 0x13);
    ParameterStep(CONNECT_ITEM, 0, 0x13, [0x00], [0x16, 0x01, 0x02], 0x16);
    assert CONNECT_ITEM[3..] == [0x16, 0x01] + [0x02] + [];
    ParameterStep(CONNECT_ITEM, 3, 0x16, [0x02], [], 0x16);
  }

  function Selector(present: bool): bytes {
    if present then [0x00, 0x01] else []
  }

  lemma SelectorParameters()
    ensures CALLING_SELECTOR == Parameter(0x33, [0x00, 0x01]) && CALLED_SELECTOR == Parameter(0x34, [0x00, 0x01])
  {
  }

  lemma SpduSplit(kind: byte, calling: bool, pdu: bytes)
    requires |ACCEPT_ITEM| + 8 + 2 + |pdu| <= 255
    ensures var selectors := (if calling then CALLING_SELECTOR else []) + CALLED_SELECTOR;
            (ConnectSpdu(kind, selectors, pdu)[2..]
             == Parameter(0x05, CONNECT_ITEM) + (Parameter(0x14, [0x00, 0x02]) + (Parameter(0x33, Selector(calling))
                + (Parameter(0x34, [0x00, 0x01]) + ([0xC1, |pdu|] + pdu)))))
  {
    ItemParameters();
    SelectorParameters();
  }

  /**
   * ISO 8327: a connect or accept SPDU that the one-octet lengths can hold. It says its own length; protocol option 0
   * and version 2 in the connect item, the duplex functional unit, the session selectors, and the user data.
   */
  lemma SpduOnWire(kind: byte, calling: bool, pdu: bytes)
    requires |ACCEPT_ITEM| + 8 + 2 + |pdu| <= 255
    ensures var selectors := (if calling then CALLING_SELECTOR else []) + CALLED_SELECTOR;
            var buf := ConnectSpdu(kind, selectors, pdu);
            && buf[0] == kind && buf[1] as int == |buf| - 2
            && ParameterOf(buf, 2, 0x05) == Some(CONNECT_ITEM)
            && ParameterOf(CONNECT_ITEM, 0, 0x13) == Some([0x00]) && ParameterOf(CONNECT_ITEM, 0, 0x16) == Some([0x02])
            && ParameterOf(buf, 2, 0x14) == Some([0x00, 0x02])
            && ParameterOf(buf, 2, 0x33) == (if calling then Some([0x00, 0x01]) else None)
            && ParameterOf(buf, 2, 0x34) == Some([0x00, 0x01])
            && ParameterOf(buf, 2, 0xC1) == Some(pdu)
    ensures BuildConnectSPDU(pdu) == ConnectSpdu(0x0D, CALLING_SELECTOR + CALLED_SELECTOR, pdu)
    ensures BuildAcceptSPDU(pdu) == ConnectSpdu(0x0E, [] + CALLED_SELECTOR, pdu)
  {
    hide ParameterOf;
    hide Parameter;
    ItemParameters();
    var buf := ConnectSpdu(kind, (if calling then CALLING_SELECTOR else []) + CALLED_SELECTOR, pdu);
    assert buf == SpduOf(kind, calling, pdu);
    forall wanted: byte ensures ParameterOf(buf, 2, wanted) == SpduParameter(calling, pdu, wanted) {
      SpduParameterRead(kind, calling, pdu, wanted);
    }
  }

  function SpduOf(kind: byte, calling: bool, pdu: bytes): bytes {
    ConnectSpdu(kind, (if calling then CALLING_SELECTOR else []) + CALLED_SELECTOR, pdu)
  }

  function SpduParameter(calling: bool, pdu: bytes, wanted: byte): Option<bytes> {
    if wanted == 0x05 then Some(CONNECT_ITEM) else if wanted == 0x14 then Some([0x00, 0x02])
    else if wanted == 0x33 && calling then Some([0x00, 0x01]) else if wanted == 0x34 then Some([0x00, 0x01])
    else if wanted == 0xC1 then Some(pdu) else None
  }

  lemma SpduParameterRead(kind: byte, calling: bool, pdu: bytes, wanted: byte)
    requires |ACCEPT_ITEM| + 8 + 2 + |pdu| <= 255
    ensures ParameterOf(SpduOf(kind, calling, pdu), 2, wanted) == SpduParameter(calling, pdu, wanted)
  {
    hide ParameterOf;
    hide Parameter;
    hide SpduOf;
    SpduSplitAt(kind, calling, pdu);
    var buf := SpduOf(kind, calling, pdu);
    var a, b := Parameter(0x05, CONNECT_ITEM), Parameter(0x14, [0x00, 0x02]);
    var rest := SpduRest(calling, pdu);
    ParameterRead(buf, 2, 0x05, CONNECT_ITEM, b + rest, wanted);
    ParameterRead(buf, 2 + |a|, 0x14, [0x00, 0x02], rest, wanted);
    RestRead(buf, 2 + |a| + |b|, calling, pdu, wanted);
  }

  /** Selectors and user data. */
  function SpduRest(calling: bool, pdu: bytes): bytes
    requires |pdu| < 256
  {
    Parameter(0x33, Selector(calling)) + (Parameter(0x34, [0x00, 0x01]) + ([0xC1, |pdu|] + pdu))
  }

  lemma SpduSplitAt(kind: byte, calling: bool, pdu: bytes)
    requires |ACCEPT_ITEM| + 8 + 2 + |pdu| <= 255
    ensures |SpduOf(kind, calling, pdu)| >= 2
    ensures SpduOf(kind, calling, pdu)[2..]
         == Parameter(0x05, CONNECT_ITEM) + (Parameter(0x14, [0x00, 0x02]) + SpduRest(calling, pdu))
  {
    hide Parameter;
    SpduSplit(kind, calling, pdu);
  }

  lemma RestRead(buf: bytes, at: nat, calling: bool, pdu: bytes, wanted: byte)
    requires |pdu| < 256 && at <= |buf| && buf[at..] == SpduRest(calling, pdu)
    ensures ParameterOf(buf, at, wanted)
         == if wanted == 0x33 && calling then Some([0x00, 0x01]) else if wanted == 0x34 then Some([0x00, 0x01])
            else if wanted == 0xC1 then Some(pdu) else None
  {
    hide ParameterOf;
    hide Parameter;
    var user := [0xC1, |pdu|] + pdu;
    assert user == user + [];
    var c, d := Parameter(0x33, Selector(calling)), Parameter(0x34, [0x00, 0x01]);
    ParameterRead(buf, at, 0x33, Selector(calling), d + user, wanted);
    ParameterRead(buf, at + |c|, 0x34, [0x00, 0x01], user, wanted);
    ParameterStep(buf, at + |c| + |d|, 0xC1, pdu, [], wanted);
    NoParameter(buf, wanted);
  }

  // ---- Presentation ----

  const BER: bytes := [0x51, 0x01]
  const ACSE_SYNTAX: bytes := [0x52, 0x01, 0x00, 0x01]
  const MMS_SYNTAX: bytes := [0x28, 0xCA, 0x22, 0x02, 0x01]

  function ContextTree(id: byte, syntax: bytes): Tree {
    Node(0x30, [Leaf(0x02, [id]), Leaf(0x06, syntax), Node(0x30, [Leaf(0x06, BER)])])
  }

  function DataTree(id: byte, payload: bytes): Tree {
    Node(0x61, [Node(0x30, [Leaf(0x02, [id]), Leaf(0xA0, payload)])])
  }

  lemma ElementIsPrim(tag: byte, content: bytes)
    requires |content| < 0x1_0000
    ensures Element(tag, content) == Prim(tag, content)
  {
    hide ToBE;
  }

  lemma ElementLeaf(tag: byte, content: bytes)
    requires ShortTag(tag) && |content| < 0x1_0000
    ensures Reads(Element(tag, content), [Leaf(tag, content)])
  {
    hide Reads;
    hide Element;
    hide Prim;
    ElementIsPrim(tag, content);
    LeafReads(tag, content);
  }

  lemma ElementNode(tag: byte, content: bytes, parts: seq<Tree>)
    requires ShortTag(tag) && |content| < 0x1_0000 && Reads(content, parts)
    ensures Reads(Element(tag, content), [Node(tag, parts)])
  {
    hide Reads;
    hide Element;
    hide Prim;
    ElementIsPrim(tag, content);
    NodeReads(tag, content, parts);
  }

  lemma DataReads(payload: bytes, id: byte)
    requires |Pdv(payload, id)| < 0x1_0000
    ensures Reads(FullyEncoded(payload, id), [DataTree(id, payload)])
  {
    hide Reads;
    hide Element;
    IdIsElement(id);
    ElementSize(0xA0, payload);
    var inner := [0x02, 0x01, id] + Element(0xA0, payload);
    ElementSize(0x30, inner);
    ElementLeaf(0x02, [id]);
    ElementLeaf(0xA0, payload);
    PairReads([0x02, 0x01, id], Leaf(0x02, [id]), Element(0xA0, payload), Leaf(0xA0, payload));
    ElementNode(0x30, inner, [Leaf(0x02, [id]), Leaf(0xA0, payload)]);
    ElementNode(0x61, Pdv(payload, id), [Node(0x30, [Leaf(0x02, [id]), Leaf(0xA0, payload)])]);
  }

  /**
   * An MMS PDU of up to 65524 octets travels as one presentation data value of context 3 (ISO 8823), behind the give-tokens
   * and data-transfer headers of a session without parameters (ISO 8327).
   */
  lemma UserDataOnWire(mms: bytes)
    requires |mms| <= 65524
    ensures WrapData(WrapUserData(mms)) == [0x01, 0x00, 0x01, 0x00] + WrapUserData(mms)
    ensures Reads(WrapUserData(mms), [DataTree(3, mms)])
  {
    hide Reads;
    hide FullyEncoded;
    PdvSizes(mms, 3);
    SizeFits(|mms|);
    DataReads(mms, 3);
  }

  lemma SizeFits(n: nat)
    requires n <= 65524
    ensures PdvSize(n) < 0x1_0000
  {
  }

  const SELECTOR_VALUE: bytes := [0x00, 0x00, 0x00, 0x01]

  /** The caller proposes two contexts: 1 for ACSE and 3 for MMS, both in BER. */
  function CallerTrees(): seq<Tree> {
    [Leaf(0x81, SELECTOR_VALUE), Leaf(0x82, SELECTOR_VALUE),
     Node(0xA4, [ContextTree(1, ACSE_SYNTAX), ContextTree(3, MMS_SYNTAX)])]
  }

  function AcceptanceTree(): Tree {
    Node(0x30, [Leaf(0x80, [0x00]), Leaf(0x81, BER)])
  }

  /** The responder accepts as many, in BER. */
  function ResponderTrees(): seq<Tree> {
    [Leaf(0x83, SELECTOR_VALUE), Node(0xA5, [AcceptanceTree(), AcceptanceTree()])]
  }

  lemma SmallLeaf(tag: byte, content: bytes)
    requires ShortTag(tag) && |content| < 0x80
    ensures Reads([tag, |content|] + content, [Leaf(tag, content)])
  {
    hide Reads;
    LeafReads(tag, content);
    assert Prim(tag, content) == [tag, |content|] + content;
  }

  lemma SmallNode(tag: byte, content: bytes, parts: seq<Tree>)
    requires ShortTag(tag) && |content| < 0x80 && Reads(content, parts)
    ensures Reads([tag, |content|] + content, [Node(tag, parts)])
  {
    hide Reads;
    NodeReads(tag, content, parts);
    assert Prim(tag, content) == [tag, |content|] + content;
  }

  lemma SyntaxReads()
    ensures Reads(BER_SYNTAX, [Node(0x30, [Leaf(0x06, BER)])])
  {
    hide Reads;
    SmallLeaf(0x06, BER);
    var inner := [0x06, |BER|] + BER;
    SmallNode(0x30, inner, [Leaf(0x06, BER)]);
    assert [0x30, |inner|] + inner == BER_SYNTAX;
  }

  function ContextContent(id: byte, syntax: bytes): bytes
    requires |syntax| < 0x60
  {
    [0x02, 0x01, id] + ([0x06, |syntax|] + syntax) + BER_SYNTAX
  }

  lemma ContextReads(id: byte, syntax: bytes)
    requires |syntax| < 0x60
    ensures |ContextContent(id, syntax)| == 11 + |syntax|
    ensures Reads([0x30, 11 + |syntax|] + ContextContent(id, syntax), [ContextTree(id, syntax)])
  {
    hide Reads;
    NumberReads(id);
    SmallLeaf(0x06, syntax);
    SyntaxReads();
    TripleReads([0x02, 0x01, id], Leaf(0x02, [id]), [0x06, |syntax|] + syntax, Leaf(0x06, syntax),
                BER_SYNTAX, Node(0x30, [Leaf(0x06, BER)]));
    SmallNode(0x30, ContextContent(id, syntax), ContextTree(id, syntax).parts);
  }

  lemma NumberReads(id: byte)
    ensures Reads([0x02, 0x01, id], [Leaf(0x02, [id])])
  {
    hide Reads;
    SmallLeaf(0x02, [id]);
    assert [0x02, |[id]|] + [id] == [0x02, 0x01, id];
  }

  lemma ListReads()
    ensures |LIST_CONTENT| == 35
    ensures Reads(LIST_CONTENT, [ContextTree(1, ACSE_SYNTAX), ContextTree(3, MMS_SYNTAX)])
  {
    hide Reads;
    hide ContextTree;
    var a := [0x30, 15] + ContextContent(1, ACSE_SYNTAX);
    var b := [0x30, 16] + ContextContent(3, MMS_SYNTAX);
    ContextReads(1, ACSE_SYNTAX);
    ContextReads(3, MMS_SYNTAX);
    assert LIST_CONTENT == a + b;
    PairReads(a, ContextTree(1, ACSE_SYNTAX), b, ContextTree(3, MMS_SYNTAX));
  }

  lemma CallerReads()
    ensures Reads(CALLER_PARAMETERS, CallerTrees())
  {
    hide Reads;
    hide LIST_CONTENT;
    hide ContextTree;
    ListReads();
    ListElement();
    var a, b, list := [0x81, |SELECTOR|] + SELECTOR, [0x82, |SELECTOR|] + SELECTOR, [0xA4, |LIST_CONTENT|] + LIST_CONTENT;
    var contexts := [ContextTree(1, ACSE_SYNTAX), ContextTree(3, MMS_SYNTAX)];
    SmallLeaf(0x81, SELECTOR);
    SmallLeaf(0x82, SELECTOR);
    SmallNode(0xA4, LIST_CONTENT, contexts);
    TripleReads(a, Leaf(0x81, SELECTOR), b, Leaf(0x82, SELECTOR), list, Node(0xA4, contexts));
    assert CALLER_PARAMETERS == a + b + list;
  }

  lemma ListElement()
    ensures CONTEXT_LIST == [0xA4, 35] + LIST_CONTENT
  {
    assert |LIST_CONTENT| == 35;
    assert CONTEXT_LIST == Element(0xA4, LIST_CONTENT);
  }

  lemma ResponderReads()
    ensures Reads(RESPONDER_PARAMETERS, ResponderTrees())
  {
    hide Reads;
    SmallLeaf(0x83, SELECTOR);
    SmallLeaf(0x80, [0x00]);
    SmallLeaf(0x81, BER);
    var item := ([0x80, 1] + [0x00]) + ([0x81, 2] + BER);
    PairReads([0x80, 1] + [0x00], Leaf(0x80, [0x00]), [0x81, 2] + BER, Leaf(0x81, BER));
    SmallNode(0x30, item, [Leaf(0x80, [0x00]), Leaf(0x81, BER)]);
    assert [0x30, |item|] + item == ACCEPTED_CONTEXT;
    PairReads(ACCEPTED_CONTEXT, AcceptanceTree(), ACCEPTED_CONTEXT, AcceptanceTree());
    var both := ACCEPTED_CONTEXT + ACCEPTED_CONTEXT;
    SmallNode(0xA5, both, [AcceptanceTree(), AcceptanceTree()]);
    PairReads([0x83, 4] + SELECTOR, Leaf(0x83, SELECTOR), [0xA5, |both|] + both, Node(0xA5, [AcceptanceTree(), AcceptanceTree()]));
    assert RESPONDER_PARAMETERS == ([0x83, 4] + SELECTOR) + ([0xA5, |both|] + both);
  }

  function PpduTree(parameters: seq<Tree>, acse: bytes): Tree {
    Node(0x31, [Node(0xA0, [Leaf(0x80, [0x01])]), Node(0xA2, parameters + [DataTree(1, acse)])])
  }

  lemma PpduReads(parameters: bytes, trees: seq<Tree>, acse: bytes)
    requires Reads(parameters, trees) && PpduBodySize(|parameters|, |acse|) < 0x1_0000
    ensures Reads(ConnectPpdu(parameters, acse), [PpduTree(trees, acse)])
  {
    hide Reads;
    hide Element;
    hide FullyEncoded;
    hide DataTree;
    PdvSizes(acse, 1);
    PpduSizes(parameters, acse);
    SizesGrow(|parameters|, |acse|);
    DataReads(acse, 1);
    var normal := Normal(parameters, acse);
    ReadsConcat(parameters, trees, FullyEncoded(acse, 1), [DataTree(1, acse)]);
    ElementNode(0xA2, normal, trees + [DataTree(1, acse)]);
    SmallLeaf(0x80, [0x01]);
    var mode := [0x80, 1] + [0x01];
    SmallNode(0xA0, mode, [Leaf(0x80, [0x01])]);
    assert [0xA0, |mode|] + mode == MODE_SELECTOR;
    PairReads(MODE_SELECTOR, Node(0xA0, [Leaf(0x80, [0x01])]), Element(0xA2, normal), Node(0xA2, trees + [DataTree(1, acse)]));
    ElementNode(0x31, PpduBody(parameters, acse), PpduTree(trees, acse).parts);
  }

  /** The connect and the accept PPDU: normal mode, selectors, contexts, and the ACSE PDU under context 1. */
  lemma PpduOnWire(acse: bytes)
    requires |acse| <= 65000
    ensures Reads(BuildConnectPDU(acse), [PpduTree(CallerTrees(), acse)])
    ensures Reads(BuildConnectAcceptPDU(acse), [PpduTree(ResponderTrees(), acse)])
  {
    hide Reads;
    hide CallerTrees;
    hide ResponderTrees;
    hide ConnectPpdu;
    hide CALLER_PARAMETERS;
    hide RESPONDER_PARAMETERS;
    CallerReads();
    ResponderReads();
    ParameterElements();
    BodySmall(49, |acse|);
    BodySmall(26, |acse|);
    PpduReads(CALLER_PARAMETERS, CallerTrees(), acse);
    PpduReads(RESPONDER_PARAMETERS, ResponderTrees(), acse);
  }

  lemma BodySmall(k: nat, n: nat)
    requires k <= 49 && n <= 65000
    ensures PpduBodySize(k, n) < 0x1_0000
  {
  }

  // ---- Contexts ----

  /** The octet behind the tag and the length of the element at `at`. */
  function Inside(buf: bytes, at: nat): nat {
    if at + 1 < |buf| && buf[at + 1] >= 0x80 then at + 2 + (buf[at + 1] - 0x80) else at + 2
  }

  /** The context identifier of the presentation data value in the user data at `at`, whatever their lengths say. */
  function ContextAt(buf: bytes, at: nat): Option<byte> {
    var list := Inside(buf, at);
    var number := Inside(buf, list);
    if number + 2 >= |buf| || buf[at] != 0x61 || buf[list] != 0x30 || buf[number..number + 2] != [0x02, 0x01] then None
    else Some(buf[number + 2])
  }

  /** The first element with this tag behind short elements, from `at` on. */
  function FindFrom(buf: bytes, at: nat, tag: byte): nat
    decreases |buf| - at
  {
    if at + 1 >= |buf| || buf[at] == tag then at else FindFrom(buf, at + 2 + buf[at + 1], tag)
  }

  /** The element of the normal-mode parameters that has this tag. */
  function ParameterAt(ppdu: bytes, tag: byte): nat {
    FindFrom(ppdu, Inside(ppdu, FindFrom(ppdu, Inside(ppdu, 0), 0xA2)), tag)
  }

  /** The abstract syntax to which a context definition list binds an identifier. */
  function SyntaxOf(list: bytes, id: byte): Option<bytes>
    decreases |list|
  {
    match ItemAt(list)
    case None => None
    case Some(entry) =>
      match ItemAt(entry.content)
      case None => None
      case Some(number) =>
        if number.content != [id] then SyntaxOf(entry.rest, id)
        else
          match ItemAt(number.rest)
          case None => None
          case Some(name) => Some(name.content)
  }

  /** The context definition list of a connect PPDU. */
  function Definitions(ppdu: bytes): bytes {
    var at := ParameterAt(ppdu, 0xA4);
    match if at <= |ppdu| then ItemAt(ppdu[at..]) else None
    case None => []
    case Some(list) => list.content
  }

  lemma InsideElement(buf: bytes, at: nat, tag: byte, content: bytes, tail: bytes)
    requires at <= |buf| && buf[at..] == Element(tag, content) + tail
    ensures Inside(buf, at) == at + Header(|content|) && at + Sized(|content|) <= |buf|
    ensures buf[at] == tag && buf[Inside(buf, at)..] == content + tail
  {
    hide ToBE;
    ElementSize(tag, content);
    var sl := ShortLength(|content|);
    var all := [tag] + sl + (content + tail);
    assert Element(tag, content) + tail == all;
    assert buf[at] == buf[at..][0] && buf[at + 1] == buf[at..][1] == sl[0];
    assert buf[at + 1 + |sl|..] == all[1 + |sl|..] == content + tail;
  }

  lemma ContextSeen(buf: bytes, at: nat, payload: bytes, id: byte, tail: bytes)
    requires at <= |buf| && buf[at..] == FullyEncoded(payload, id) + tail
    ensures ContextAt(buf, at) == Some(id)
  {
    hide Element;
    hide Inside;
    var data := Element(0xA0, payload);
    var inner := [0x02, 0x01, id] + data;
    PdvSizes(payload, id);
    InsideElement(buf, at, 0x61, Pdv(payload, id), tail);
    var list := Inside(buf, at);
    InsideElement(buf, list, 0x30, inner, tail);
    var number := Inside(buf, list);
    assert inner + tail == [0x02, 0x01, id] + (data + tail);
    assert buf[number..number + 2] == buf[number..][..2] == [0x02, 0x01] && buf[number + 2] == buf[number..][2];
  }

  lemma ShortPassed(buf: bytes, at: nat, tag: byte, content: bytes, tail: bytes, wanted: byte)
    requires |content| < 0x80 && at <= |buf| && buf[at..] == [tag, |content|] + content + tail
    ensures FindFrom(buf, at, wanted) == if tag == wanted then at else FindFrom(buf, at + 2 + |content|, wanted)
    ensures at + 2 + |content| <= |buf| && buf[at + 2 + |content|..] == tail
  {
    var all := [tag, |content|] + content + tail;
    assert buf[at] == buf[at..][0] && buf[at + 1] == buf[at..][1];
    assert buf[at + 2 + |content|..] == all[2 + |content|..];
  }

  lemma Arrived(buf: bytes, at: nat, tag: byte, content: bytes, tail: bytes)
    requires at <= |buf| && buf[at..] == Element(tag, content) + tail
    ensures FindFrom(buf, at, tag) == at
  {
    hide Element;
    hide Inside;
    InsideElement(buf, at, tag, content, tail);
  }

  lemma NormalFound(parameters: bytes, acse: bytes, tag: byte)
    ensures var ppdu := ConnectPpdu(parameters, acse);
            exists at: nat :: at <= |ppdu| && ppdu[at..] == Normal(parameters, acse) && ParameterAt(ppdu, tag) == FindFrom(ppdu, at, tag)
  {
    hide Element;
    hide Inside;
    hide FindFrom;
    var ppdu := ConnectPpdu(parameters, acse);
    var body, normal := PpduBody(parameters, acse), Normal(parameters, acse);
    PpduSizes(parameters, acse);
    assert ppdu[0..] == Element(0x31, body) + [];
    InsideElement(ppdu, 0, 0x31, body, []);
    var start := Inside(ppdu, 0);
    assert ppdu[start..] == body == [0xA0, 3] + [0x80, 0x01, 0x01] + Element(0xA2, normal);
    ShortPassed(ppdu, start, 0xA0, [0x80, 0x01, 0x01], Element(0xA2, normal), 0xA2);
    assert ppdu[start + 5..] == Element(0xA2, normal) + [];
    Arrived(ppdu, start + 5, 0xA2, normal, []);
    InsideElement(ppdu, start + 5, 0xA2, normal, []);
    assert ppdu[Inside(ppdu, start + 5)..] == normal;
  }

  lemma CallerFound(acse: bytes)
    ensures var ppdu := BuildConnectPDU(acse);
            && ContextAt(ppdu, ParameterAt(ppdu, 0x61)) == Some(1)
            && Definitions(ppdu) == LIST_CONTENT
  {
    hide LIST_CONTENT;
    hide FullyEncoded;
    hide ContextAt;
    hide FindFrom;
    hide ParameterAt;
    hide ItemAt;
    var ppdu := BuildConnectPDU(acse);
    forall tag: byte | tag == 0x61 || tag == 0xA4
      ensures ParameterAt(ppdu, tag) <= |ppdu|
      ensures ppdu[ParameterAt(ppdu, tag)..]
           == (if tag == 0xA4 then [0xA4, 35] + LIST_CONTENT else []) + FullyEncoded(acse, 1)
    {
      NormalFound(CALLER_PARAMETERS, acse, tag);
      var at: nat :| at <= |ppdu| && ppdu[at..] == Normal(CALLER_PARAMETERS, acse) && ParameterAt(ppdu, tag) == FindFrom(ppdu, at, tag);
      CallerPassed(ppdu, at, acse, tag);
    }
    var data := FullyEncoded(acse, 1);
    assert data == data + [];
    ContextSeen(ppdu, ParameterAt(ppdu, 0x61), acse, 1, []);
    ListSize();
    ItemRead(0xA4, LIST_CONTENT, data);
    assert Prim(0xA4, LIST_CONTENT) == [0xA4, 35] + LIST_CONTENT;
  }

  lemma ListSize()
    ensures |LIST_CONTENT| == 35
  {
  }

  lemma CallerPassed(ppdu: bytes, at: nat, acse: bytes, tag: byte)
    requires at <= |ppdu| && ppdu[at..] == Normal(CALLER_PARAMETERS, acse) && (tag == 0x61 || tag == 0xA4)
    ensures FindFrom(ppdu, at, tag) <= |ppdu|
    ensures ppdu[FindFrom(ppdu, at, tag)..] == (if tag == 0xA4 then [0xA4, 35] + LIST_CONTENT else []) + FullyEncoded(acse, 1)
  {
    hide LIST_CONTENT;
    hide FullyEncoded;
    hide FindFrom;
    ListElement();
    ListSize();
    var data := FullyEncoded(acse, 1);
    var list := [0xA4, 35] + LIST_CONTENT;
    assert ppdu[at..] == [0x81, 4] + SELECTOR + ([0x82, 4] + SELECTOR + (list + data));
    ShortPassed(ppdu, at, 0x81, SELECTOR, [0x82, 4] + SELECTOR + (list + data), tag);
    ShortPassed(ppdu, at + 6, 0x82, SELECTOR, list + data, tag);
    ShortPassed(ppdu, at + 12, 0xA4, LIST_CONTENT, data, tag);
    if tag == 0x61 {
      DataArrived(ppdu, at + 49, acse);
    }
  }

  lemma DataArrived(ppdu: bytes, at: nat, acse: bytes)
    requires at <= |ppdu| && ppdu[at..] == FullyEncoded(acse, 1)
    ensures FindFrom(ppdu, at, 0x61) == at && [] + FullyEncoded(acse, 1) == FullyEncoded(acse, 1)
  {
    hide Element;
    hide FindFrom;
    PdvSizes(acse, 1);
    assert FullyEncoded(acse, 1) == FullyEncoded(acse, 1) + [];
    Arrived(ppdu, at, 0x61, Pdv(acse, 1), []);
  }

  lemma ResponderPassed(ppdu: bytes, at: nat, acse: bytes)
    requires at <= |ppdu| && ppdu[at..] == Normal(RESPONDER_PARAMETERS, acse)
    ensures FindFrom(ppdu, at, 0x61) == at + 26 <= |ppdu|
    ensures ppdu[at + 26..] == FullyEncoded(acse, 1)
  {
    hide FullyEncoded;
    hide FindFrom;
    hide ACCEPTED_CONTEXT;
    SmallContents();
    var data := FullyEncoded(acse, 1);
    var results := ACCEPTED_CONTEXT + ACCEPTED_CONTEXT;
    assert ppdu[at..] == [0x83, 4] + SELECTOR + ([0xA5, 18] + results + data);
    ShortPassed(ppdu, at, 0x83, SELECTOR, [0xA5, 18] + results + data, 0x61);
    ShortPassed(ppdu, at + 6, 0xA5, results, data, 0x61);
    DataArrived(ppdu, at + 26, acse);
  }

  lemma ResponderFound(acse: bytes)
    ensures var ppdu := BuildConnectAcceptPDU(acse);
            ContextAt(ppdu, ParameterAt(ppdu, 0x61)) == Some(1)
  {
    hide FullyEncoded;
    hide ContextAt;
    hide FindFrom;
    hide ParameterAt;
    hide ConnectPpdu;
    hide Normal;
    hide RESPONDER_PARAMETERS;
    var ppdu := BuildConnectAcceptPDU(acse);
    NormalFound(RESPONDER_PARAMETERS, acse, 0x61);
    var at: nat :| at <= |ppdu| && ppdu[at..] == Normal(RESPONDER_PARAMETERS, acse) && ParameterAt(ppdu, 0x61) == FindFrom(ppdu, at, 0x61);
    ResponderPassed(ppdu, at, acse);
    var data := FullyEncoded(acse, 1);
    assert data == data + [];
    ContextSeen(ppdu, at + 26, acse, 1, []);
  }

  lemma EntrySyntax(id: byte, syntax: bytes, rest: bytes, wanted: byte)
    requires |syntax| < 0x60
    ensures SyntaxOf([0x30, 11 + |syntax|] + ContextContent(id, syntax) + rest, wanted)
         == if id == wanted then Some(syntax) else SyntaxOf(rest, wanted)
  {
    hide ItemAt;
    var entry := ContextContent(id, syntax);
    var name := [0x06, |syntax|] + syntax;
    ItemRead(0x30, entry, rest);
    assert Prim(0x30, entry) == [0x30, 11 + |syntax|] + entry;
    ItemRead(0x02, [id], name + BER_SYNTAX);
    assert Prim(0x02, [id]) == [0x02, 0x01, id];
    assert entry == [0x02, 0x01, id] + (name + BER_SYNTAX);
    ItemRead(0x06, syntax, BER_SYNTAX);
    assert Prim(0x06, syntax) == name;
  }

  lemma ListSyntaxes()
    ensures SyntaxOf(LIST_CONTENT, 1) == Some(ACSE_SYNTAX) && SyntaxOf(LIST_CONTENT, 3) == Some(MMS_SYNTAX)
  {
    hide SyntaxOf;
    var b := [0x30, 16] + ContextContent(3, MMS_SYNTAX);
    assert LIST_CONTENT == [0x30, 15] + ContextContent(1, ACSE_SYNTAX) + b;
    EntrySyntax(1, ACSE_SYNTAX, b, 1);
    EntrySyntax(1, ACSE_SYNTAX, b, 3);
    assert b == b + [];
    EntrySyntax(3, MMS_SYNTAX, [], 3);
  }

  /**
   * Every MMS PDU travels under the context that the connect PPDU binds to the MMS syntax; every ACSE PDU, in both
   * directions, under the one it binds to the ACSE syntax. Lengths beyond two octets, which wrap, do not change that.
   */
  lemma ContextsBound(mms: bytes, acse: bytes, answer: bytes)
    ensures var connect, accept, data := BuildConnectPDU(acse), BuildConnectAcceptPDU(answer), WrapUserData(mms);
            var called, calling, user := ContextAt(accept, ParameterAt(accept, 0x61)),
              ContextAt(connect, ParameterAt(connect, 0x61)), ContextAt(data, 0);
            && user.Some? && SyntaxOf(Definitions(connect), user.value) == Some([0x28, 0xCA, 0x22, 0x02, 0x01])
            && calling.Some? && SyntaxOf(Definitions(connect), calling.value) == Some([0x52, 0x01, 0x00, 0x01])
            && called == calling && user != calling
  {
    hide ConnectPpdu;
    hide FullyEncoded;
    hide ContextAt;
    hide ParameterAt;
    hide SyntaxOf;
    hide Definitions;
    hide LIST_CONTENT;
    CallerFound(acse);
    ResponderFound(answer);
    ListSyntaxes();
    var data := WrapUserData(mms);
    assert data[0..] == FullyEncoded(mms, 3) + [];
    ContextSeen(data, 0, mms, 3, []);
  }
}
