/** mms.Value as the heap object it is: bits and elements changed in place, and the deep copy. */
module ValueObjects {
  import opened Bytes
  import opened BerIntegers
  import opened Floats
  import opened Powers
  import opened MmsValues
  import opened MmsValueRoundTrip
  import opened Ber

  // ---- Bits of an octet ----

  /** `(b >> e) & 1`. */
  predicate Bit(b: nat, e: nat) {
    if e == 0 then b % 2 == 1 else Bit(b / 2, e - 1)
  }

  /** `b | 1 << e` and `b &^ (1 << e)`. */
  function WithBit(b: nat, e: nat, set_: bool): nat {
    if e == 0 then b / 2 * 2 + (if set_ then 1 else 0) else 2 * WithBit(b / 2, e - 1, set_) + b % 2
  }

  /** Setting a clear bit adds its weight, clearing a set one subtracts it, and nothing else happens. */
  lemma {:induction false} WithBitIsMask(b: nat, e: nat, set_: bool)
    ensures WithBit(b, e, set_) == if Bit(b, e) == set_ then b else if set_ then b + Pow2(e) else b - Pow2(e)
  {
    if e > 0 {
      WithBitIsMask(b / 2, e - 1, set_);
    }
  }

  lemma {:induction false} WithBitReads(b: nat, e: nat, f: nat, set_: bool)
    ensures Bit(WithBit(b, e, set_), f) == if e == f then set_ else Bit(b, f)
  {
    if e > 0 && f > 0 {
      WithBitReads(b / 2, e - 1, f - 1, set_);
    }
  }

  lemma DoublePow2(k: nat)
    requires k > 0
    ensures Pow2(k) == 2 * Pow2(k - 1)
  {
  }

  lemma {:induction false} WithBitBound(b: nat, e: nat, k: nat, set_: bool)
    requires e < k && b < Pow2(k)
    ensures WithBit(b, e, set_) < Pow2(k)
  {
    hide Pow2;
    var half := Pow2(k - 1);
    assert Pow2(k) == 2 * half by {
      DoublePow2(k);
    }
    if e > 0 {
      WithBitBound(b / 2, e - 1, k - 1, set_);
    }
  }

  function OctetWithBit(b: byte, e: nat, set_: bool): byte
    requires e < 8
  {
    Pow2Split(4, 4);
    WithBitBound(b, e, 8, set_);
    WithBit(b, e, set_)
  }

  // ---- Bits of a byte slice ----

  predicate BitAt(bits: bytes, index: nat)
    requires index / 8 < |bits|
  {
    Bit(bits[index / 8], 7 - index % 8)
  }

  /** GetBit: an index past the bit count reads false, a slice too short for the bit count panics. */
  function GetBitOf(bits: bytes, size: int, index: int): Result<bool> {
    if index < 0 || index >= size then Ok(false)
    else if index / 8 >= |bits| then Panic
    else Ok(BitAt(bits, index))
  }

  function SetBitOf(bits: bytes, size: int, index: int, set_: bool): Result<bytes> {
    if index < 0 || index >= size then Ok(bits)
    else if index / 8 >= |bits| then Panic
    else Ok(bits[index / 8 := OctetWithBit(bits[index / 8], 7 - index % 8, set_)])
  }

  predicate Covers(bits: bytes, size: int) {
    size <= 8 * |bits|
  }

  /** The bit string as a sequence of booleans. */
  function BitsOf(bits: bytes, size: nat): (s: seq<bool>)
    requires Covers(bits, size)
    ensures |s| == size && forall i :: 0 <= i < size ==> s[i] == BitAt(bits, i)
  {
    seq(size, i requires 0 <= i < size => BitAt(bits, i))
  }

  /** No index panics if and only if the slice covers the bit count. */
  lemma NeverPanicsExactly(bits: bytes, size: int)
    ensures (forall i: int :: !GetBitOf(bits, size, i).Panic?) <==> Covers(bits, size)
  {
    if !Covers(bits, size) {
      assert GetBitOf(bits, size, 8 * |bits|).Panic?;
    }
  }

  /** SetBit changes one boolean of the sequence, the one GetBit reads there, and no other. */
  lemma SetBitRefines(bits: bytes, size: nat, index: nat, set_: bool)
    requires Covers(bits, size) && index < size
    ensures SetBitOf(bits, size, index, set_).Ok?
    ensures var after := SetBitOf(bits, size, index, set_).value;
            Covers(after, size) && BitsOf(after, size) == BitsOf(bits, size)[index := set_]
  {
    hide Bit;
    hide OctetWithBit;
    var after := SetBitOf(bits, size, index, set_).value;
    forall i | 0 <= i < size ensures BitAt(after, i) == if i == index then set_ else BitAt(bits, i) {
      if i / 8 == index / 8 {
        OctetReads(bits[i / 8], 7 - index % 8, 7 - i % 8, set_);
      }
    }
  }

  lemma OctetReads(b: byte, e: nat, f: nat, set_: bool)
    requires e < 8
    ensures Bit(OctetWithBit(b, e, set_), f) == if e == f then set_ else Bit(b, f)
  {
    WithBitReads(b, e, f, set_);
  }

  /**
   * The option fields and trigger options are made with a negative bit count. The server's own object reads false
   * everywhere and ignores writes; the wire turns the count positive, and the receiver reads the bits. The two agree
   * on a bit if and only if it is clear.
   */
  lemma NegativeSizeRepairedByWire(bits: bytes, size: int, index: nat)
    requires size < 0 && Covers(bits, -size) && index < -size && |bits| < 0x1000_0000
    ensures var sent := BitString(bits, size);
            && EncodeValue(sent).Ok? && DecodeValue(EncodeValue(sent).value, 0).Ok?
            && var got := DecodeValue(EncodeValue(sent).value, 0).value.0;
               && got.BitString? && got.size == -size
               && GetBitOf(got.bitBytes, got.size, index) == Ok(BitAt(bits, index))
               && (GetBitOf(got.bitBytes, got.size, index) == GetBitOf(bits, size, index) <==> !BitAt(bits, index))
               && forall set_ :: SetBitOf(bits, size, index, set_) == Ok(bits)
  {
    hide Bit;
    hide Prim;
    hide DecodeValue;
    var sent := BitString(bits, size);
    var enc := EncodeValue(sent).value;
    BitStringFits(bits, size);
    AtWhole(enc);
    ValueRoundTrip(enc, 0, sent);
    var n := (Abs(size) + 7) / 8;
    assert Fit(bits, n)[index / 8] == bits[index / 8];
  }

  lemma BitStringFits(bits: bytes, size: int)
    requires Covers(bits, Abs(size)) && |bits| < 0x1000_0000
    ensures Fits(EncodeValue(BitString(bits, size)))
  {
    hide LengthBytes;
  }

  // ---- Value objects ----

  datatype Type = TypeArray | TypeStructure | TypeBitString | TypeOctetString | OtherType(number: int)

  /** The fields that are copied by assignment. */
  datatype Scalars = Scalars(
    boolVal: bool, intVal: int64, floatVal: bits64, bitStrSize: int, strVal: bytes, utcTime: UTCTime,
    milliseconds: uint32, days: uint16, width: int, dataErr: int)

  /** A nil slice is an empty one. */
  function Slice(a: array?<byte>): bytes
    reads a
  {
    if a == null then [] else a[..]
  }

  class ValueObject {
    var typ: Type
    var scalars: Scalars
    var bitStr: array?<byte>
    var octetStr: array?<byte>
    var objID: array?<int>
    var elements: array?<ValueObject?>

    constructor (typ: Type, scalars: Scalars, bitStr: array?<byte>, octetStr: array?<byte>, objID: array?<int>,
                 elements: array?<ValueObject?>)
      ensures this.typ == typ && this.scalars == scalars
      ensures this.bitStr == bitStr && this.octetStr == octetStr && this.objID == objID && this.elements == elements
    {
      this.typ, this.scalars, this.bitStr, this.octetStr, this.objID, this.elements :=
        typ, scalars, bitStr, octetStr, objID, elements;
    }

    /** Any type but a bit string panics. */
    method GetBit(index: int) returns (r: Result<bool>)
      ensures typ != TypeBitString ==> r == Panic
      ensures typ == TypeBitString ==> r == GetBitOf(Slice(bitStr), scalars.bitStrSize, index)
    {
      if typ != TypeBitString {
        return Panic;
      }
      if index < 0 || index >= scalars.bitStrSize {
        return Ok(false);
      }
      if bitStr == null || index / 8 >= bitStr.Length {
        return Panic;
      }
      return Ok(Bit(bitStr[index / 8], 7 - index % 8));
    }

    method SetBit(index: int, set_: bool) returns (r: Result<()>)
      modifies bitStr
      ensures typ != TypeBitString ==> r == Panic && Slice(bitStr) == old(Slice(bitStr))
      ensures typ == TypeBitString ==>
                match SetBitOf(old(Slice(bitStr)), scalars.bitStrSize, index, set_)
                case Ok(bits) => r == Ok(()) && Slice(bitStr) == bits
                case _ => r == Panic && Slice(bitStr) == old(Slice(bitStr))
    {
      if typ != TypeBitString {
        return Panic;
      }
      if index < 0 || index >= scalars.bitStrSize {
        return Ok(());
      }
      if bitStr == null || index / 8 >= bitStr.Length {
        return Panic;
      }
      bitStr[index / 8] := OctetWithBit(bitStr[index / 8], 7 - index % 8, set_);
      return Ok(());
    }

    method SetElement(index: int, elem: ValueObject?) returns (r: Result<()>)
      modifies elements
      ensures r == if typ == TypeArray || typ == TypeStructure then Ok(()) else Panic
      ensures elements != null ==>
                elements[..] == if r.Ok? && 0 <= index < elements.Length then old(elements[..])[index := elem]
                                else old(elements[..])
    {
      if typ != TypeArray && typ != TypeStructure {
        return Panic;
      }
      if index < 0 || elements == null || index >= elements.Length {
        return Ok(());
      }
      elements[index] := elem;
      return Ok(());
    }
  }

  // ---- What an object graph spells ----

  /** The value below an object as a tree; `None` and `leaf` stand for nil slices. */
  datatype Tree =
    | NilTree
    | Tree(typ: Type, scalars: Scalars, bits: Option<bytes>, octets: Option<bytes>, arcs: Option<seq<int>>,
           leaf: bool, children: seq<Tree>)

  ghost predicate SpellsSlice<T>(a: array?<T>, s: Option<seq<T>>, region: set<object>)
    reads region
  {
    match s
    case None => a == null
    case Some(contents) => a != null && a in region && a[..] == contents
  }

  /** Everything below `v` lies in `region` and spells the (finite, hence acyclic) tree `t`. */
  ghost predicate Spells(v: ValueObject?, t: Tree, region: set<object>)
    reads region
    decreases t
  {
    match t
    case NilTree => v == null
    case Tree(typ, scalars, bits, octets, arcs, leaf, children) =>
      && v != null && v in region && v.typ == typ && v.scalars == scalars
      && SpellsSlice(v.bitStr, bits, region) && SpellsSlice(v.octetStr, octets, region) && SpellsSlice(v.objID, arcs, region)
      && if leaf then v.elements == null && children == []
         else
           && v.elements != null && v.elements in region && v.elements.Length == |children|
           && forall i :: 0 <= i < |children| ==> Spells(v.elements[i], children[i], region)
  }

  /** The slices of the objects in `region` are in it too. */
  ghost predicate Closed(region: set<object>)
    reads region
  {
    forall v: ValueObject :: v in region ==>
      (v.bitStr != null ==> v.bitStr in region) && (v.elements != null ==> v.elements in region)
  }

  // ---- Clone ----

  /** make and copy. */
  method CopySlice<T(0)>(a: array?<T>, ghost s: Option<seq<T>>, ghost region: set<object>)
    returns (cp: array?<T>, ghost home: set<object>)
    requires SpellsSlice(a, s, region)
    ensures fresh(home) && SpellsSlice(cp, s, home) && home == if cp == null then {} else {cp}
  {
    if a == null {
      return null, {};
    }
    var c := new T[a.Length];
    for i := 0 to a.Length
      invariant c[..i] == a[..i]
      invariant a[..] == old(a[..])
    {
      c[i] := a[i];
    }
    assert c[..] == c[..a.Length] && a[..] == a[..a.Length];
    return c, {c};
  }

  lemma SpellsInLarger(v: ValueObject?, t: Tree, region: set<object>, larger: set<object>)
    requires Spells(v, t, region) && region <= larger
    ensures Spells(v, t, larger)
    decreases t
  {
    if t.Tree? && !t.leaf {
      forall i | 0 <= i < |t.children| ensures Spells(v.elements[i], t.children[i], larger) {
        SpellsInLarger(v.elements[i], t.children[i], region, larger);
      }
    }
  }

  lemma AllSpellInLarger(vs: seq<ValueObject?>, ts: seq<Tree>, region: set<object>, larger: set<object>)
    requires |vs| <= |ts| && region <= larger && forall i :: 0 <= i < |vs| ==> Spells(vs[i], ts[i], region)
    ensures forall i :: 0 <= i < |vs| ==> Spells(vs[i], ts[i], larger)
  {
    forall i | 0 <= i < |vs| ensures Spells(vs[i], ts[i], larger) {
      SpellsInLarger(vs[i], ts[i], region, larger);
    }
  }

  /** The byte slice and the element array of a node occur nowhere else in its tree. */
  ghost predicate Separate(v: ValueObject, t: Tree, region: set<object>)
    requires v in region && Spells(v, t, region)
    reads region
  {
    && (v.bitStr == null || v.bitStr != v.octetStr)
    && forall i :: 0 <= i < |t.children| ==>
         Spells(v.elements[i], t.children[i], region - {v.bitStr}) && Spells(v.elements[i], t.children[i], region - {v.elements})
  }

  /**
   * Clone: the copy spells the same tree, and everything below it (objects, slices, element arrays) is new, so
   * it shares nothing with the original; the original is as it was. Shared nodes below `v` come out as separate copies.
   */
  method Clone(v: ValueObject?, ghost t: Tree, ghost region: set<object>) returns (cp: ValueObject?, ghost home: set<object>)
    requires Spells(v, t, region)
    ensures fresh(home) && Spells(cp, t, home) && Closed(home)
    ensures Spells(v, t, region) && home !! region
    ensures cp != null ==> Separate(cp, t, home)
    decreases t, 1
  {
    if v == null {
      return null, {};
    }
    var bits, octets, arcs, sliceHome := CopySlices(v, t, region);
    var es: array?<ValueObject?> := null;
    ghost var kids: set<object> := {};
    if v.elements != null {
      es, kids := CloneElements(v.elements, t.children, region);
    }
    cp, home := NewNode(t, v.typ, v.scalars, bits, octets, arcs, es, sliceHome, kids);
  }

  /** The three slices of a node, each in a new array of its own. */
  method CopySlices(v: ValueObject, ghost t: Tree, ghost region: set<object>)
    returns (bits: array?<byte>, octets: array?<byte>, arcs: array?<int>, ghost home: set<object>)
    requires t.Tree? && Spells(v, t, region)
    ensures fresh(home) && forall o :: o in home ==> !(o is ValueObject) && !(o is array<ValueObject?>)
    ensures SpellsSlice(bits, t.bits, home) && SpellsSlice(octets, t.octets, home) && SpellsSlice(arcs, t.arcs, home)
    ensures bits == null || bits != octets
  {
    ghost var bitsHome, octetsHome, arcsHome;
    bits, bitsHome := CopySlice(v.bitStr, t.bits, region);
    octets, octetsHome := CopySlice(v.octetStr, t.octets, region);
    arcs, arcsHome := CopySlice(v.objID, t.arcs, region);
    home := bitsHome + octetsHome + arcsHome;
  }

  /** A new node over slices and elements that spell the parts of a tree. */
  method NewNode(ghost t: Tree, typ: Type, scalars: Scalars, bits: array?<byte>, octets: array?<byte>, arcs: array?<int>,
                 es: array?<ValueObject?>, ghost slices: set<object>, ghost kids: set<object>)
    returns (cp: ValueObject, ghost home: set<object>)
    requires t.Tree? && typ == t.typ && scalars == t.scalars
    requires SpellsSlice(bits, t.bits, slices) && SpellsSlice(octets, t.octets, slices) && SpellsSlice(arcs, t.arcs, slices)
    requires bits == null || bits != octets
    requires (forall o :: o in slices ==> !(o is ValueObject)) && Closed(kids) && es !in kids && bits !in kids
    requires if t.leaf then es == null && t.children == []
             else es != null && es.Length == |t.children|
                  && forall i :: 0 <= i < |t.children| ==> Spells(es[i], t.children[i], kids)
    ensures fresh(cp) && home == {cp} + slices + kids + if es == null then {} else {es}
    ensures Spells(cp, t, home) && Closed(home) && Separate(cp, t, home)
  {
    ghost var arrays := slices + if es == null then {} else {es};
    cp := new ValueObject(typ, scalars, bits, octets, arcs, es);
    home := {cp} + arrays + kids;
    Assembled(cp, t, slices, kids, home);
    SeparateNode(cp, t, kids, home);
    ClosedNode(cp, arrays, kids, home);
  }

  lemma SeparateNode(v: ValueObject, t: Tree, kids: set<object>, home: set<object>)
    requires v in home && Spells(v, t, home) && kids <= home && v.bitStr !in kids && v.elements !in kids
    requires v.bitStr == null || v.bitStr != v.octetStr
    requires forall i :: 0 <= i < |t.children| ==> Spells(v.elements[i], t.children[i], kids)
    ensures Separate(v, t, home)
  {
    forall i | 0 <= i < |t.children|
      ensures Spells(v.elements[i], t.children[i], home - {v.bitStr}) && Spells(v.elements[i], t.children[i], home - {v.elements})
    {
      SpellsInLarger(v.elements[i], t.children[i], kids, home - {v.bitStr});
      SpellsInLarger(v.elements[i], t.children[i], kids, home - {v.elements});
    }
  }

  lemma ClosedNode(v: ValueObject, slices: set<object>, kids: set<object>, home: set<object>)
    requires home == {v} + slices + kids && Closed(kids) && forall o :: o in slices ==> !(o is ValueObject)
    requires (v.bitStr != null ==> v.bitStr in home) && (v.elements != null ==> v.elements in home)
    ensures Closed(home)
  {
  }

  /** A node over slices and elements that spell the parts of a tree spells the tree. */
  lemma Assembled(v: ValueObject, t: Tree, slices: set<object>, kids: set<object>, home: set<object>)
    requires t.Tree? && v.typ == t.typ && v.scalars == t.scalars
    requires {v} + slices + kids <= home && (v.elements != null ==> v.elements in home)
    requires SpellsSlice(v.bitStr, t.bits, slices) && SpellsSlice(v.octetStr, t.octets, slices)
    requires SpellsSlice(v.objID, t.arcs, slices)
    requires if t.leaf then v.elements == null && t.children == []
             else v.elements != null && v.elements.Length == |t.children|
                  && forall i :: 0 <= i < |t.children| ==> Spells(v.elements[i], t.children[i], kids)
    ensures Spells(v, t, home)
  {
    if !t.leaf {
      forall i | 0 <= i < |t.children| ensures Spells(v.elements[i], t.children[i], home) {
        SpellsInLarger(v.elements[i], t.children[i], kids, home);
      }
    }
  }

  /** The element loop of Clone. */
  method CloneElements(elements: array<ValueObject?>, ghost ts: seq<Tree>, ghost region: set<object>)
    returns (es: array<ValueObject?>, ghost kids: set<object>)
    requires elements in region && elements.Length == |ts|
    requires forall i :: 0 <= i < |ts| ==> Spells(elements[i], ts[i], region)
    ensures fresh(es) && fresh(kids) && es !in kids && es.Length == |ts| && Closed(kids)
    ensures forall i :: 0 <= i < |ts| ==> Spells(es[i], ts[i], kids)
    decreases ts, 0
  {
    es := new ValueObject?[elements.Length](_ => null);
    kids := {};
    for i := 0 to elements.Length
      invariant fresh(kids) && es !in kids && Closed(kids)
      invariant forall j :: 0 <= j < i ==> Spells(es[j], ts[j], kids)
    {
      var e, home := Clone(elements[i], ts[i], region);
      AllSpellInLarger(es[..i], ts, kids, kids + home);
      SpellsInLarger(e, ts[i], home, kids + home);
      kids := kids + home;
      assert forall j :: 0 <= j < i ==> Spells(es[..i][j], ts[j], kids);
      es[i] := e;
    }
  }

  // ---- Independence of the copy ----

  datatype Edit =
    | BitEdit(on: ValueObject, index: int, set_: bool)
    | ElementEdit(on: ValueObject, index: int, elem: ValueObject?)

  /**
   * Any sequence of SetBit and SetElement calls on objects of one region leaves every value outside it alone. With
   * the two regions of Clone, in either role, no edit of the copy shows in the original and none of the original in
   * the copy.
   */
  method ApplyEdits(edits: seq<Edit>, ghost edited: set<object>, ghost v: ValueObject?, ghost t: Tree, ghost kept: set<object>)
    requires forall e :: e in edits ==> e.on in edited
    requires Closed(edited) && edited !! kept && Spells(v, t, kept)
    modifies edited
    ensures Spells(v, t, kept) && Closed(edited)
  {
    for i := 0 to |edits|
      invariant Closed(edited) && Spells(v, t, kept)
    {
      assert edits[i] in edits;
      match edits[i]
      case BitEdit(o, index, set_) => var _ := o.SetBit(index, set_);
      case ElementEdit(o, index, elem) => var _ := o.SetElement(index, elem);
    }
  }

  /** What SetBit makes of the tree of a value. */
  function TreeWithBit(t: Tree, index: int, set_: bool): Tree {
    if t.Tree? && t.typ == TypeBitString && t.bits.Some? && SetBitOf(t.bits.value, t.scalars.bitStrSize, index, set_).Ok?
    then t.(bits := Some(SetBitOf(t.bits.value, t.scalars.bitStrSize, index, set_).value))
    else t
  }

  function TreeWithElement(t: Tree, index: int, element: Tree): Tree {
    if t.Tree? && (t.typ == TypeArray || t.typ == TypeStructure) && 0 <= index < |t.children|
    then t.(children := t.children[index := element])
    else t
  }

  /** Clone and SetBit: the copy spells the tree with the one bit changed, the original the tree as it was. */
  method CloneAndSetBit(v: ValueObject, index: int, set_: bool, ghost t: Tree, ghost region: set<object>)
    returns (cp: ValueObject?, ghost home: set<object>)
    requires Spells(v, t, region)
    ensures fresh(home) && Spells(cp, TreeWithBit(t, index, set_), home) && Spells(v, t, region)
  {
    cp, home := Clone(v, t, region);
    ghost var rest := home - {cp.bitStr};
    ghost var children := if cp.elements == null then [] else cp.elements[..];
    assert forall i :: 0 <= i < |children| ==> Spells(children[i], t.children[i], rest);
    var _ := cp.SetBit(index, set_);
    AllSpellInLarger(children, t.children, rest, home);
    assert cp.elements != null ==> cp.elements[..] == children;
    assert forall i :: 0 <= i < |children| ==> Spells(children[i], t.children[i], home);
  }

  /** Clone and SetElement: the copy takes the new element in, which may be any older value. */
  method CloneAndSetElement(v: ValueObject, index: int, elem: ValueObject?, ghost t: Tree, ghost region: set<object>,
                            ghost element: Tree, ghost elsewhere: set<object>)
    returns (cp: ValueObject?, ghost home: set<object>)
    requires Spells(v, t, region) && Spells(elem, element, elsewhere)
    ensures fresh(home) && Spells(cp, TreeWithElement(t, index, element), home + elsewhere) && Spells(v, t, region)
  {
    cp, home := Clone(v, t, region);
    ghost var rest := home - {cp.elements};
    ghost var children := if cp.elements == null then [] else cp.elements[..];
    var _ := cp.SetElement(index, elem);
    AllSpellInLarger(children, t.children, rest, home + elsewhere);
    SpellsInLarger(elem, element, elsewhere, home + elsewhere);
    assert forall i :: 0 <= i < |children| ==> Spells(children[i], t.children[i], home + elsewhere);
  }
}
