/** Association requests and responses and the initiate PDU in them, read by the standards. */
module AcseWire {
  import opened Bytes
  import opened BerIntegers
  import opened Ber
  import opened BerTrees
  import opened MmsValues
  import opened MmsPduRoundTrip
  import opened Layers
  import opened LayerStack
  import opened LayerWire

  // ---- ACSE ----

  const APPLICATION_CONTEXT: bytes := [0x28, 0xCA, 0x22, 0x02, 0x03]
  const MECHANISM: bytes := [0x52, 0x03, 0x01]
  const AUTH_REQUIREMENTS: bytes := [0x04, 0x80]

  function NameTree(): Tree {
    Node(0xA1, [Leaf(0x06, APPLICATION_CONTEXT)])
  }

  /** The EXTERNAL that carries an MMS PDU names its presentation context. */
  function InformationTree(mms: bytes): Tree {
    Node(0xBE, [Node(0x28, [Leaf(0x02, [0x03]), Leaf(0xA0, mms)])])
  }

  function PasswordTrees(password: Option<bytes>): seq<Tree> {
    match password
    case None => []
    case Some(pw) => [Leaf(0x8A, AUTH_REQUIREMENTS), Leaf(0x8B, MECHANISM), Node(0xAC, [Leaf(0x80, pw)])]
  }

  lemma InformationReads(mms: bytes)
    requires |UserInfo(mms)| < LIMIT
    ensures Reads(Prim(0xBE, UserInfo(mms)), [InformationTree(mms)])
  {
    hide Reads;
    hide Prim;
    var inner := [0x02, 0x01, 0x03] + Prim(0xA0, mms);
    PrimLonger(0xA0, mms);
    PrimLonger(0x28, inner);
    NumberReads(3);
    LeafReads(0xA0, mms);
    PairReads([0x02, 0x01, 0x03], Leaf(0x02, [0x03]), Prim(0xA0, mms), Leaf(0xA0, mms));
    NodeReads(0x28, inner, [Leaf(0x02, [0x03]), Leaf(0xA0, mms)]);
    NodeReads(0xBE, UserInfo(mms), [Node(0x28, [Leaf(0x02, [0x03]), Leaf(0xA0, mms)])]);
  }

  lemma NameReads()
    ensures Reads(Prim(0xA1, CONTEXT_NAME), [NameTree()])
  {
    hide Reads;
    SmallLeaf(0x06, APPLICATION_CONTEXT);
    assert [0x06, |APPLICATION_CONTEXT|] + APPLICATION_CONTEXT == CONTEXT_NAME;
    NodeReads(0xA1, CONTEXT_NAME, [Leaf(0x06, APPLICATION_CONTEXT)]);
  }

  /** The password's length is one octet, so a peer finds it up to 127 octets and never beyond. */
  lemma PasswordReads(pw: bytes)
    ensures Reads([0x80, |pw| % 256] + pw, [Leaf(0x80, pw)]) <==> |pw| <= 127
  {
    hide Reads;
    if |pw| <= 127 {
      SmallLeaf(0x80, pw);
    } else {
      ReadsLeaf([0x80, |pw| % 256] + pw, 0x80, pw);
      LongerThanSaid(pw);
    }
  }

  lemma ReadsLeaf(buf: bytes, tag: byte, content: bytes)
    ensures Reads(buf, [Leaf(tag, content)]) ==> ItemAt(buf).Some? && ItemAt(buf).value.content == content
  {
    hide ItemAt;
    if ItemAt(buf).Some? {
      OneDependsOnContent(ItemAt(buf).value, Leaf(tag, content));
    }
  }

  lemma LongerThanSaid(pw: bytes)
    requires |pw| > 127
    ensures var item := ItemAt([0x80, |pw| % 256] + pw);
            item.Some? ==> |item.value.content| < |pw|
  {
    hide FromBE;
  }

  lemma AuthReads(password: Option<bytes>)
    requires password.Some? ==> |password.value| <= 127
    ensures Reads(AuthFields(password), PasswordTrees(password)) && |AuthFields(password)| < 200
  {
    hide Reads;
    if password == None {
      NothingReads();
    } else {
      var pw := password.value;
      var field := [0x80, |pw| % 256] + pw;
      SmallLeaf(0x8A, AUTH_REQUIREMENTS);
      SmallLeaf(0x8B, MECHANISM);
      PasswordReads(pw);
      NodeReads(0xAC, field, [Leaf(0x80, pw)]);
      PrimSize(0xAC, field);
      TripleReads([0x8A, 0x02] + AUTH_REQUIREMENTS, Leaf(0x8A, AUTH_REQUIREMENTS),
                  [0x8B, 0x03] + MECHANISM, Leaf(0x8B, MECHANISM), Prim(0xAC, field), Node(0xAC, [Leaf(0x80, pw)]));
      assert [0x8A, 0x02, 0x04, 0x80] == [0x8A, 0x02] + AUTH_REQUIREMENTS;
      assert [0x8B, 0x03, 0x52, 0x03, 0x01] == [0x8B, 0x03] + MECHANISM;
    }
  }

  /** ISO 8650: the request names the MMS application context, password and mechanism if there are any, and the PDU. */
  lemma AarqOnWire(password: Option<bytes>, mms: bytes)
    requires password.Some? ==> |password.value| <= 127
    requires |BuildAARQ(password, mms)| < LIMIT
    ensures Reads(BuildAARQ(password, mms),
                  [Node(0x60, [NameTree()] + PasswordTrees(password) + [InformationTree(mms)])])
  {
    hide Reads;
    hide Prim;
    hide UserInfo;
    hide AuthFields;
    hide PasswordTrees;
    var name, auth, info := Prim(0xA1, CONTEXT_NAME), AuthFields(password), Prim(0xBE, UserInfo(mms));
    PrimLonger(0x60, AarqBody(password, mms));
    PrimLonger(0xBE, UserInfo(mms));
    NameReads();
    AuthReads(password);
    InformationReads(mms);
    ReadsConcat(name, [NameTree()], auth, PasswordTrees(password));
    ReadsConcat(name + auth, [NameTree()] + PasswordTrees(password), info, [InformationTree(mms)]);
    NodeReads(0x60, AarqBody(password, mms), [NameTree()] + PasswordTrees(password) + [InformationTree(mms)]);
  }

  function AcceptedTrees(): seq<Tree> {
    [Node(0xA2, [Leaf(0x02, [0x00])]), Node(0xA3, [Node(0xA1, [Leaf(0x02, [0x00])])])]
  }

  lemma AcceptedReads()
    ensures Reads(ACCEPTED + DIAGNOSTIC, AcceptedTrees())
  {
    hide Reads;
    NumberReads(0);
    SmallNode(0xA2, [0x02, 0x01, 0x00], [Leaf(0x02, [0x00])]);
    assert ACCEPTED == [0xA2, 3] + [0x02, 0x01, 0x00];
    SmallNode(0xA1, [0x02, 0x01, 0x00], [Leaf(0x02, [0x00])]);
    var source := [0xA1, 3] + [0x02, 0x01, 0x00];
    SmallNode(0xA3, source, [Node(0xA1, [Leaf(0x02, [0x00])])]);
    assert DIAGNOSTIC == [0xA3, |source|] + source;
    PairReads(ACCEPTED, Node(0xA2, [Leaf(0x02, [0x00])]), DIAGNOSTIC, Node(0xA3, [Node(0xA1, [Leaf(0x02, [0x00])])]));
  }

  /** The response: accepted, no diagnostic of the service user, and the PDU. */
  lemma AareOnWire(mms: bytes)
    requires |BuildAARE(mms)| < LIMIT
    ensures Reads(BuildAARE(mms), [Node(0x61, [NameTree()] + AcceptedTrees() + [InformationTree(mms)])])
  {
    hide Reads;
    hide Prim;
    hide UserInfo;
    hide AcceptedTrees;
    hide ACCEPTED;
    hide DIAGNOSTIC;
    var name, info := Prim(0xA1, CONTEXT_NAME), Prim(0xBE, UserInfo(mms));
    PrimLonger(0x61, AareBody(mms));
    PrimLonger(0xBE, UserInfo(mms));
    NameReads();
    AcceptedReads();
    InformationReads(mms);
    ReadsConcat(name, [NameTree()], ACCEPTED + DIAGNOSTIC, AcceptedTrees());
    ReadsConcat(name + (ACCEPTED + DIAGNOSTIC), [NameTree()] + AcceptedTrees(), info, [InformationTree(mms)]);
    assert AareBody(mms) == name + (ACCEPTED + DIAGNOSTIC) + info;
    NodeReads(0x61, AareBody(mms), [NameTree()] + AcceptedTrees() + [InformationTree(mms)]);
  }

  // ---- Initiate ----

  const PARAMETER_CBB: bytes := [0x05, 0xF1, 0x00]
  const SERVICES: bytes := [0x03, 0xEE, 0x1C, 0x00, 0x00, 0x04, 0x08, 0x00, 0x00, 0x79, 0xEF, 0x18]

  function DetailTree(): Tree {
    Node(0xA4, [Leaf(0x80, [1]), Leaf(0x81, PARAMETER_CBB), Leaf(0x82, SERVICES)])
  }

  function InitiateTrees(localDetail: bytes): seq<Tree> {
    [Leaf(0x80, localDetail), Leaf(0x81, [5]), Leaf(0x82, [5]), Leaf(0x83, [10]), DetailTree()]
  }

  lemma DetailReads(inner: bytes)
    requires inner == ContextTLV(0, false, [1]) + ContextTLV(1, false, PARAMETER_CBB) + ContextTLV(2, false, SERVICES)
    ensures |inner| < 100 && Reads(ContextTLV(4, true, inner), [DetailTree()])
  {
    hide Reads;
    hide ContextTLV;
    ContextSize(0, false, [1]);
    ContextSize(1, false, PARAMETER_CBB);
    ContextSize(2, false, SERVICES);
    ContextLeaf(0, [1]);
    ContextLeaf(1, PARAMETER_CBB);
    ContextLeaf(2, SERVICES);
    TripleReads(ContextTLV(0, false, [1]), Leaf(0x80, [1]), ContextTLV(1, false, PARAMETER_CBB), Leaf(0x81, PARAMETER_CBB),
                ContextTLV(2, false, SERVICES), Leaf(0x82, SERVICES));
    ContextNode(4, inner, DetailTree().parts);
  }

  /**
   * The initiate PDU: 65000 octets, five outstanding calls either way, nesting level 10, version 1, and the bit strings
   * of supported parameters and services.
   */
  lemma InitiateOnWire(tag: byte)
    requires ShortTag(tag)
    ensures SignedValue(TwosComplement(65000)) == 65000
    ensures Reads(InitiatePDU(tag), [Node(tag, InitiateTrees(TwosComplement(65000)))])
  {
    hide Reads;
    hide ContextTLV;
    hide Prim;
    hide TwosComplement;
    hide DetailTree;
    var local := TwosComplement(65000);
    TwosComplementMeaning(65000);
    TwosComplementLength(65000, 3);
    var inner := ContextTLV(0, false, [1]) + ContextTLV(1, false, PARAMETER_CBB) + ContextTLV(2, false, SERVICES);
    DetailReads(inner);
    var a, b, c, d, e := ContextTLV(0, false, local), ContextTLV(1, false, [5]), ContextTLV(2, false, [5]),
      ContextTLV(3, false, [10]), ContextTLV(4, true, inner);
    ContextLeaf(0, local);
    ContextLeaf(1, [5]);
    ContextLeaf(2, [5]);
    ContextLeaf(3, [10]);
    TripleReads(a, Leaf(0x80, local), b, Leaf(0x81, [5]), c, Leaf(0x82, [5]));
    PairReads(d, Leaf(0x83, [10]), e, DetailTree());
    ReadsConcat(a + b + c, [Leaf(0x80, local), Leaf(0x81, [5]), Leaf(0x82, [5])], d + e, [Leaf(0x83, [10]), DetailTree()]);
    InitiateParts(a, b, c, d, e);
    assert InitiateBody() == a + b + c + d + e;
    assert [Leaf(0x80, local), Leaf(0x81, [5]), Leaf(0x82, [5])] + [Leaf(0x83, [10]), DetailTree()] == InitiateTrees(local);
    InitiateSizes(local, inner);
    NodeReads(tag, InitiateBody(), InitiateTrees(local));
  }

  lemma InitiateParts(a: bytes, b: bytes, c: bytes, d: bytes, e: bytes)
    ensures a + b + c + d + e == a + b + c + (d + e)
  {
  }

  lemma InitiateSizes(local: bytes, inner: bytes)
    requires |local| <= 9 && |inner| < 100
    ensures |ContextTLV(0, false, local) + ContextTLV(1, false, [5]) + ContextTLV(2, false, [5])
             + ContextTLV(3, false, [10]) + ContextTLV(4, true, inner)| < 1000
  {
    hide ContextTLV;
    ContextSize(0, false, local);
    ContextSize(1, false, [5]);
    ContextSize(2, false, [5]);
    ContextSize(3, false, [10]);
    ContextSize(4, true, inner);
  }
}
