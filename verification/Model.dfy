/** The IEC 61850 data model tree, its lookup by object reference, and the lookup cache. */
module Model {
  import opened Bytes
  import opened Texts

  const NONE: Text := [0x4E, 0x4F, 0x4E, 0x45]

  /**
   * A printed functional constraint: two letters, `ALL`, or `FC(n)` for every other number. It is never empty and
   * never `NONE` (FC_NONE prints as `FC(-1)`), so the tests for these two texts in the tree walks never succeed.
   */
  type FCName = t: Text | DOLLAR !in t && t != [] && t != NONE witness [0x53, 0x54]

  /** The Go type of a node, with the fields that only this type has. */
  datatype Kind =
    | LogicalDevice(ldName: Text)
    | LogicalNode
    | DataObject
    | DataAttribute(fc: FCName, elementCount: int)

  datatype Node = Node(name: Text, kind: Kind, children: seq<Node>)

  /** Child indices from the list of logical devices downwards. */
  type Position = seq<nat>

  /** The type a lookup looks for; below data attributes there are only data attributes. */
  datatype Tier = LD | LN | DO | DA {
    function Below(): Tier {
      match this
      case LD => LN
      case LN => DO
      case _ => DA
    }
  }

  predicate IsTier(n: Node, tier: Tier) {
    match tier
    case LD => n.kind.LogicalDevice?
    case LN => n.kind.LogicalNode?
    case DO => n.kind.DataObject?
    case DA => n.kind.DataAttribute?
  }

  // ---- Lookup ----

  /** The first child of the wanted type and name. */
  function FirstNamed(nodes: seq<Node>, tier: Tier, name: Text): (r: Option<nat>)
    ensures r.Some? ==> r.value < |nodes| && IsTier(nodes[r.value], tier) && nodes[r.value].name == name
    ensures forall j :: 0 <= j < (if r.Some? then r.value else |nodes|) ==> !(IsTier(nodes[j], tier) && nodes[j].name == name)
  {
    if nodes == [] then None
    else if IsTier(nodes[0], tier) && nodes[0].name == name then Some(0)
    else
      match FirstNamed(nodes[1..], tier, name)
      case None => None
      case Some(i) => Some(i + 1)
  }

  function Prepend(i: nat, r: Option<Position>): Option<Position> {
    match r
    case None => None
    case Some(p) => Some([i] + p)
  }

  /** findInLD, findInLN, findInDO and findInDA: the same search for children of type `tier`. */
  function FindBelow(nodes: seq<Node>, tier: Tier, parts: seq<Text>): Option<Position>
    decreases |parts|
  {
    if parts == [] then Some([])
    else
      match FirstNamed(nodes, tier, parts[0])
      case None => None
      case Some(i) => Prepend(i, FindBelow(nodes[i].children, tier.Below(), parts[1..]))
  }

  /** The name parts behind the slash, in either notation. */
  function PartsOf(rest: Text): (parts: seq<Text>)
    ensures |parts| >= 1
  {
    Split(Replace(rest, DOLLAR, DOT), DOT)
  }

  /** FindNode without its cache. */
  function Find(devices: seq<Node>, ref: Text): Option<Position> {
    match IndexOf(ref, SLASH)
    case None => None
    case Some(k) =>
      match FirstNamed(devices, LD, ref[..k])
      case None => None
      case Some(d) => Prepend(d, FindBelow(devices[d].children, LN, PartsOf(ref[k + 1..])))
  }

  // ---- Growth ----

  /** baseNode.addChild on the node at `at`, or on the model itself. */
  function Grown(nodes: seq<Node>, at: Position, child: Node): seq<Node>
    decreases |at|
  {
    if at == [] then nodes + [child]
    else if at[0] >= |nodes| then nodes
    else
      var n := nodes[at[0]];
      nodes[at[0] := n.(children := Grown(n.children, at[1..], child))]
  }

  /** `b` is `a` with children appended here and there. */
  predicate Extends(a: seq<Node>, b: seq<Node>)
    decreases a
  {
    |a| <= |b| && forall i :: 0 <= i < |a| ==> Extended(a[i], b[i])
  }

  predicate Extended(m: Node, n: Node)
    decreases m
  {
    m.name == n.name && m.kind == n.kind && Extends(m.children, n.children)
  }

  // ---- The cache ----

  type Cache = map<Text, Option<Position>>

  /** Lookups never change what is cached; a reference without a slash is not cached at all. */
  function Remembered(cache: Cache, devices: seq<Node>, ref: Text): Cache {
    if ref in cache || SLASH !in ref then cache else cache[ref := Find(devices, ref)]
  }

  function Answer(cache: Cache, devices: seq<Node>, ref: Text): Option<Position> {
    if ref in cache then cache[ref] else Find(devices, ref)
  }

  class IedModel {
    const name: Text
    var children: seq<Node>
    var nodeCache: Cache

    constructor (name: Text)
      ensures this.name == name && children == [] && nodeCache == map[]
    {
      this.name, children, nodeCache := name, [], map[];
    }

    /** AddLogicalDevice, and the constructors of the lower levels with a parent. */
    method AddChild(at: Position, child: Node)
      modifies this`children
      ensures children == Grown(old(children), at, child)
    {
      if at == [] {
        children := children + [child];
      } else {
        children := Grown(children, at, child);
      }
    }

    method FindNode(ref: Text) returns (r: Option<Position>)
      modifies this`nodeCache
      ensures r == Answer(old(nodeCache), children, ref)
      ensures nodeCache == Remembered(old(nodeCache), children, ref)
    {
      hide FindBelow;
      hide PartsOf;
      hide IsTier;
      hide IndexOf;
      if ref in nodeCache {
        return nodeCache[ref];
      }
      var slash := IndexOf(ref, SLASH);
      if slash.None? {
        return None;
      }
      var ldName, rest := ref[..slash.value], ref[slash.value + 1..];
      r := None;
      var i := 0;
      while i < |children|
        invariant 0 <= i <= |children| && r == None
        invariant forall j :: 0 <= j < i ==> !(IsTier(children[j], LD) && children[j].name == ldName)
      {
        if IsTier(children[i], LD) && children[i].name == ldName {
          assert FirstNamed(children, LD, ldName) == Some(i);
          r := Prepend(i, FindBelow(children[i].children, LN, PartsOf(rest)));
          break;
        }
        i := i + 1;
      }
      nodeCache := nodeCache[ref := r];
    }
  }
}
