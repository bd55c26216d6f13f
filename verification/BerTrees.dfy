/** A reader of BER that shares nothing with the program's: one-octet tags, definite lengths, trees of elements. */
module BerTrees {
  import opened Bytes
  import opened BerIntegers
  import opened Ber
  import opened MmsValues
  import opened MmsPdus
  import opened MmsPduRoundTrip

  /** An element that holds octets, and one that holds elements. */
  datatype Tree =
    | Leaf(tag: byte, content: bytes)
    | Node(tag: byte, parts: seq<Tree>)

  datatype Item = Item(tag: byte, content: bytes, rest: bytes)

  /** ITU-T X.690, sections 8.1.2 and 8.1.3: the first element of `buf`, and what follows it. */
  function ItemAt(buf: bytes): (r: Option<Item>)
    ensures r.Some? ==> |r.value.content| + |r.value.rest| + 2 <= |buf|
  {
    if |buf| < 2 || buf[0] % 32 == 31 then None
    else if buf[1] < 0x80 then ItemOf(buf, buf[1], 2)
    else if buf[1] == 0x80 || buf[1] > 0x84 || 2 + buf[1] - 0x80 > |buf| then None
    else
      var start: nat := 2 + buf[1] - 0x80;
      ItemOf(buf, FromBE(buf[2..start]), start)
  }

  function ItemOf(buf: bytes, length: nat, start: nat): (r: Option<Item>)
    requires 0 < |buf|
    ensures r.Some? ==> |r.value.content| + |r.value.rest| + start == |buf|
  {
    if start + length > |buf| then None else Some(Item(buf[0], buf[start..start + length], buf[start + length..]))
  }

  /** The octets are these elements, one after the other, down to their leaves. */
  predicate Reads(buf: bytes, ts: seq<Tree>)
    decreases ts
  {
    if ts == [] then buf == []
    else
      match ItemAt(buf)
      case None => false
      case Some(item) => ReadsOne(item, ts[0]) && Reads(item.rest, ts[1..])
  }

  predicate ReadsOne(item: Item, t: Tree)
    decreases t
  {
    item.tag == t.tag && if t.Leaf? then item.content == t.content else Reads(item.content, t.parts)
  }

  // ---- What the program writes, to this reader ----

  predicate ShortTag(tag: byte) {
    tag % 32 != 31
  }

  lemma LongForm(buf: bytes, k: nat, n: nat, content: bytes, rest: bytes)
    requires 1 <= k <= 4 && n < Pow256(k) && |content| == n
    requires |buf| == 2 + k + n + |rest| && buf[1] == 0x80 + k
    requires buf[2..2 + k] == ToBE(n, k) && buf[2 + k..2 + k + n] == content && buf[2 + k + n..] == rest
    requires ShortTag(buf[0])
    ensures ItemAt(buf) == Some(Item(buf[0], content, rest))
  {
    hide FromBE;
    hide ToBE;
    hide Pow256;
    FromToBE(n, k);
  }

  lemma ItemRead(tag: byte, content: bytes, rest: bytes)
    requires ShortTag(tag) && |content| < LIMIT
    ensures ItemAt(Prim(tag, content) + rest) == Some(Item(tag, content, rest))
  {
    hide FromBE;
    hide ToBE;
    hide Pow256;
    PowersOf256();
    var buf, n := Prim(tag, content) + rest, |content|;
    var l := LengthBytes(n);
    assert buf == [tag] + l + content + rest;
    if n < 0x80 {
      assert buf[2..2 + n] == content && buf[2 + n..] == rest;
    } else {
      var k := if n <= 0xFF then 1 else if n <= 0xFFFF then 2 else if n <= 0xFF_FFFF then 3 else 4;
      assert l == [0x80 + k] + ToBE(n, k);
      assert buf[2..2 + k] == ToBE(n, k) && buf[2 + k..2 + k + n] == content && buf[2 + k + n..] == rest;
      LongForm(buf, k, n, content, rest);
    }
  }

  lemma ItemExtends(buf: bytes, more: bytes)
    requires ItemAt(buf).Some?
    ensures var item := ItemAt(buf).value;
            ItemAt(buf + more) == Some(Item(item.tag, item.content, item.rest + more))
  {
    hide FromBE;
    if buf[1] >= 0x80 {
      var start: nat := 2 + buf[1] - 0x80;
      assert (buf + more)[2..start] == buf[2..start];
      ItemOfExtends(buf, more, FromBE(buf[2..start]), start);
    } else {
      ItemOfExtends(buf, more, buf[1], 2);
    }
  }

  lemma ItemOfExtends(buf: bytes, more: bytes, length: nat, start: nat)
    requires 0 < |buf| && start + length <= |buf|
    ensures var item := ItemOf(buf, length, start).value;
            ItemOf(buf + more, length, start) == Some(Item(item.tag, item.content, item.rest + more))
  {
    assert (buf + more)[start..start + length] == buf[start..start + length];
    assert (buf + more)[start + length..] == buf[start + length..] + more;
  }

  lemma {:induction false} ReadsConcat(a: bytes, ts: seq<Tree>, b: bytes, us: seq<Tree>)
    requires Reads(a, ts) && Reads(b, us)
    ensures Reads(a + b, ts + us)
    decreases |ts|
  {
    hide ItemAt;
    hide ReadsOne;
    if ts == [] {
      assert a + b == b && ts + us == us;
    } else {
      ItemExtends(a, b);
      OneDependsOnContent(ItemAt(a).value, ts[0]);
      OneDependsOnContent(ItemAt(a + b).value, ts[0]);
      ReadsConcat(ItemAt(a).value.rest, ts[1..], b, us);
      assert (ts + us)[1..] == ts[1..] + us;
    }
  }

  lemma PairReads(a: bytes, t: Tree, b: bytes, u: Tree)
    requires Reads(a, [t]) && Reads(b, [u])
    ensures Reads(a + b, [t, u])
  {
    hide Reads;
    ReadsConcat(a, [t], b, [u]);
    assert [t] + [u] == [t, u];
  }

  lemma TripleReads(a: bytes, t: Tree, b: bytes, u: Tree, c: bytes, w: Tree)
    requires Reads(a, [t]) && Reads(b, [u]) && Reads(c, [w])
    ensures Reads(a + b + c, [t, u, w])
  {
    hide Reads;
    PairReads(a, t, b, u);
    ReadsConcat(a + b, [t, u], c, [w]);
    assert [t, u] + [w] == [t, u, w];
  }

  lemma AppendReads(a: bytes, ts: seq<Tree>, flag: bool, b: bytes, u: Tree)
    requires Reads(a, ts) && (flag ==> Reads(b, [u]))
    ensures Reads(a + if flag then b else [], ts + if flag then [u] else [])
  {
    hide Reads;
    if flag {
      ReadsConcat(a, ts, b, [u]);
    } else {
      assert a + [] == a && ts + [] == ts;
    }
  }

  lemma NothingReads()
    ensures Reads([], [])
  {
  }

  lemma TreeReads(tag: byte, content: bytes, t: Tree)
    requires ShortTag(tag) && |content| < LIMIT && ReadsOne(Item(tag, content, []), t)
    ensures Reads(Prim(tag, content), [t])
  {
    hide ItemAt;
    hide ReadsOne;
    ItemRead(tag, content, []);
    assert Prim(tag, content) + [] == Prim(tag, content);
    assert [t][1..] == [];
    NothingReads();
    OneDependsOnContent(Item(tag, content, []), t);
  }

  lemma OneDependsOnContent(item: Item, t: Tree)
    ensures ReadsOne(item, t) <==> item.tag == t.tag && if t.Leaf? then item.content == t.content else Reads(item.content, t.parts)
  {
  }

  lemma LeafReads(tag: byte, content: bytes)
    requires ShortTag(tag) && |content| < LIMIT
    ensures Reads(Prim(tag, content), [Leaf(tag, content)])
  {
    hide Reads;
    OneDependsOnContent(Item(tag, content, []), Leaf(tag, content));
    TreeReads(tag, content, Leaf(tag, content));
  }

  lemma NodeReads(tag: byte, content: bytes, parts: seq<Tree>)
    requires ShortTag(tag) && |content| < LIMIT && Reads(content, parts)
    ensures Reads(Prim(tag, content), [Node(tag, parts)])
  {
    hide Reads;
    OneDependsOnContent(Item(tag, content, []), Node(tag, parts));
    TreeReads(tag, content, Node(tag, parts));
  }

  /** The context tags that the program builds from a number. */
  lemma ContextIsPrim(tag: nat, constructed: bool, value: bytes)
    requires tag < 31
    ensures ContextTLV(tag, constructed, value) == Prim((if constructed then 0xA0 else 0x80) + tag, value)
    ensures ShortTag((if constructed then 0xA0 else 0x80) + tag)
  {
    PrimIsTLV(CLASS_CONTEXT, constructed, tag, value);
  }

  lemma ContextLeaf(tag: nat, value: bytes)
    requires tag < 31 && |value| < LIMIT
    ensures Reads(ContextTLV(tag, false, value), [Leaf(0x80 + tag, value)])
  {
    hide Reads;
    hide ContextTLV;
    hide Prim;
    ContextIsPrim(tag, false, value);
    LeafReads(0x80 + tag, value);
  }

  lemma ContextNode(tag: nat, value: bytes, parts: seq<Tree>)
    requires tag < 31 && |value| < LIMIT && Reads(value, parts)
    ensures Reads(ContextTLV(tag, true, value), [Node(0xA0 + tag, parts)])
  {
    hide Reads;
    hide ContextTLV;
    hide Prim;
    ContextIsPrim(tag, true, value);
    NodeReads(0xA0 + tag, value, parts);
  }

  lemma UniversalIsPrim(tag: nat, constructed: bool, value: bytes)
    requires tag < 31
    ensures UniversalTLV(tag, constructed, value) == Prim((if constructed then 0x20 else 0) + tag, value)
  {
    PrimIsTLV(CLASS_UNIVERSAL, constructed, tag, value);
  }

  lemma UniversalLeaf(tag: nat, value: bytes)
    requires tag < 31 && |value| < LIMIT
    ensures Reads(UniversalTLV(tag, false, value), [Leaf(tag, value)])
  {
    hide Reads;
    hide UniversalTLV;
    hide Prim;
    UniversalIsPrim(tag, false, value);
    LeafReads(tag, value);
  }

  lemma UniversalNode(tag: nat, value: bytes, parts: seq<Tree>)
    requires tag < 31 && |value| < LIMIT && Reads(value, parts)
    ensures Reads(UniversalTLV(tag, true, value), [Node(0x20 + tag, parts)])
  {
    hide Reads;
    hide UniversalTLV;
    hide Prim;
    UniversalIsPrim(tag, true, value);
    NodeReads(0x20 + tag, value, parts);
  }
}
