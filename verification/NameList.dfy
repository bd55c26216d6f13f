/** The server's named variables and how it resolves a variable specification. */
module NameList {
  import opened Bytes
  import opened Texts
  import opened Model

  const BR: Text := [0x42, 0x52]

  /** The fields of a buffered report control block. */
  datatype BrcbField =
    | RptID | RptEna | DatSet | ConfRev | OptFlds | BufTm | SqNum | TrgOps | IntgPd | GI | PurgeBuf | EntryID | TimeofEntry

  datatype RCB = RCB(name: Text, buffered: bool, ldInst: Text, lnName: Text)

  /** The part of the server that naming depends on. */
  datatype Site = Site(iedName: Text, devices: seq<Node>, rcbs: seq<RCB>)

  // ---- Grouping by functional constraint ----

  predicate HasFC(n: Node, fc: Text) {
    exists i :: 0 <= i < |n.children| && OfFC(n.children[i], fc)
  }

  predicate OfFC(n: Node, fc: Text) {
    n.kind.DataAttribute? && n.kind.fc == fc
  }

  /** The constraints of the attributes of one data object, each once, in order of appearance. */
  function ObjectFCs(attributes: seq<Node>, seen: seq<FCName>): seq<FCName> {
    if attributes == [] then seen
    else
      var k := attributes[0].kind;
      ObjectFCs(attributes[1..], if k.DataAttribute? && k.fc !in seen then seen + [k.fc] else seen)
  }

  /** The constraints met in a logical node, each once. */
  function NodeFCs(nodes: seq<Node>, seen: seq<FCName>): seq<FCName> {
    if nodes == [] then seen
    else NodeFCs(nodes[1..], if nodes[0].kind.DataObject? then ObjectFCs(nodes[0].children, seen) else seen)
  }

  predicate Indices(which: seq<nat>, nodes: seq<Node>) {
    forall j :: 0 <= j < |which| ==> which[j] < |nodes|
  }

  /** Indices, from `k` on, of the data objects with an attribute of this constraint. */
  function ObjectsWith(nodes: seq<Node>, fc: Text, k: nat): (r: seq<nat>)
    ensures Indices(r, nodes)
    ensures forall j :: 0 <= j < |r| ==> k <= r[j] && nodes[r[j]].kind.DataObject? && HasFC(nodes[r[j]], fc)
    decreases |nodes| - k
  {
    if k >= |nodes| then []
    else (if nodes[k].kind.DataObject? && HasFC(nodes[k], fc) then [k] else []) + ObjectsWith(nodes, fc, k + 1)
  }

  // ---- Emission ----

  /** A listed name as its parts, and the node that emitted it. */
  datatype Entry = Entry(parts: seq<Text>, at: Position)

  /** Attributes among `nodes` from index `k` on, of one constraint or of all, with everything below them. */
  function Attributes(prefix: seq<Text>, at: Position, nodes: seq<Node>, fc: Option<Text>, k: nat): seq<Entry>
    decreases nodes, |nodes| - k
  {
    if k >= |nodes| then []
    else
      var n := nodes[k];
      (if n.kind.DataAttribute? && (fc.None? || n.kind.fc == fc.value) then Attribute(prefix, at + [k], n) else [])
      + Attributes(prefix, at, nodes, fc, k + 1)
  }

  /** collectDANames. */
  function Attribute(prefix: seq<Text>, at: Position, n: Node): seq<Entry>
    decreases n, 0
  {
    [Entry(prefix + [n.name], at)] + Attributes(prefix + [n.name], at, n.children, None, 0)
  }

  function Objects(prefix: seq<Text>, at: Position, nodes: seq<Node>, fc: Text, which: seq<nat>): seq<Entry>
    requires Indices(which, nodes)
  {
    if which == [] then []
    else
      var i := which[0];
      [Entry(prefix + [nodes[i].name], at + [i])]
      + Attributes(prefix + [nodes[i].name], at + [i], nodes[i].children, Some(fc), 0)
      + Objects(prefix, at, nodes, fc, which[1..])
  }

  function Group(at: Position, ln: Node, fc: Text): seq<Entry> {
    [Entry([ln.name, fc], at)] + Objects([ln.name, fc], at, ln.children, fc, ObjectsWith(ln.children, fc, 0))
  }

  function Groups(at: Position, ln: Node, fcs: seq<Text>): seq<Entry> {
    if fcs == [] then [] else Group(at, ln, fcs[0]) + Groups(at, ln, fcs[1..])
  }

  predicate Controls(rcb: RCB, ldInst: Text, lnName: Text) {
    rcb.buffered && rcb.ldInst == ldInst && rcb.lnName == lnName
  }

  predicate AnyControl(rcbs: seq<RCB>, ldInst: Text, lnName: Text) {
    exists i :: 0 <= i < |rcbs| && Controls(rcbs[i], ldInst, lnName)
  }

  function NodeEntries(at: Position, ln: Node, ldInst: Text, rcbs: seq<RCB>): seq<Entry> {
    Groups(at, ln, Sort(NodeFCs(ln.children, [])))
    + if AnyControl(rcbs, ldInst, ln.name) then [Entry([ln.name, BR], at)] else []
  }

  function DeviceEntries(at: Position, nodes: seq<Node>, ldInst: Text, rcbs: seq<RCB>, k: nat): seq<Entry>
    decreases |nodes| - k
  {
    if k >= |nodes| then []
    else
      (if nodes[k].kind.LogicalNode? then NodeEntries(at + [k], nodes[k], ldInst, rcbs) else [])
      + DeviceEntries(at, nodes, ldInst, rcbs, k + 1)
  }

  function Name(e: Entry): Text {
    if e.parts == [] then [] else Join(e.parts, DOLLAR)
  }

  function Names(es: seq<Entry>): (names: seq<Text>)
    ensures |names| == |es| && forall i :: 0 <= i < |es| ==> names[i] == Name(es[i])
  {
    seq(|es|, i requires 0 <= i < |es| => Name(es[i]))
  }

  lemma NamesConcat(a: seq<Entry>, b: seq<Entry>)
    ensures Names(a + b) == Names(a) + Names(b)
  {
  }

  /** mmsDomainName. */
  function DomainName(iedName: Text, ld: Node): Text {
    if ld.kind.LogicalDevice? && ld.kind.ldName != [] then ld.kind.ldName else iedName + ld.name
  }

  /** findLD. */
  function FindLD(site: Site, domain: Text, k: nat): (r: Option<nat>)
    ensures r.Some? ==> k <= r.value < |site.devices| && DomainName(site.iedName, site.devices[r.value]) == domain
    ensures r.Some? ==> site.devices[r.value].kind.LogicalDevice?
    decreases |site.devices| - k
  {
    if k >= |site.devices| then None
    else if site.devices[k].kind.LogicalDevice? && DomainName(site.iedName, site.devices[k]) == domain then Some(k)
    else FindLD(site, domain, k + 1)
  }

  // ---- Resolution ----

  /** What a variable specification stands for. */
  datatype Target =
    | WholeNode(at: Position)
    | FCGroup(at: Position, fc: Text)
    | Member(at: Position)
    | ControlGroup(at: Position)
    | ControlBlock(name: Text)
    | ControlField(name: Text, field: Text)

  /** The keys of brcbValues. */
  predicate KnownControl(rcbs: seq<RCB>, name: Text) {
    exists i :: 0 <= i < |rcbs| && rcbs[i].buffered && rcbs[i].name == name
  }

  /** resolveBRCBVariable; `fields` are the names that fieldValue knows. */
  function ResolveControl(site: Site, fields: set<Text>, parts: seq<Text>, ldInst: Text, at: Position): Result<Target>
    requires |parts| >= 2
  {
    if |parts| == 2 then if AnyControl(site.rcbs, ldInst, parts[0]) then Ok(ControlGroup(at)) else Err
    else if |parts| == 3 then if KnownControl(site.rcbs, parts[2]) then Ok(ControlBlock(parts[2])) else Err
    else if |parts| == 4 then
      if KnownControl(site.rcbs, parts[2]) && parts[3] in fields then Ok(ControlField(parts[2], parts[3])) else Err
    else Err
  }

  /** The last case of resolveVariable: FindNode on the dotted path, which must be an object or an attribute. */
  function Dotted(site: Site, ldInst: Text, lnName: Text, parts: seq<Text>): Result<Target>
    requires |parts| >= 1
  {
    match Find(site.devices, ldInst + [SLASH] + lnName + [DOT] + Join(parts, DOT))
    case None => Err
    case Some(p) => if |p| >= 3 then Ok(Member(p)) else Err
  }

  /** resolveVariable. */
  function Resolve(site: Site, fields: set<Text>, domain: Text, item: Text): Result<Target> {
    var parts := Split(item, DOLLAR);
    match FindLD(site, domain, 0)
    case None => Err
    case Some(d) =>
      var ld := site.devices[d];
      match FirstNamed(ld.children, LN, parts[0])
      case None => Err
      case Some(n) =>
        var ln := ld.children[n];
        if |parts| >= 2 && parts[1] == BR then ResolveControl(site, fields, parts, ld.name, [d, n])
        else if |parts| == 1 then Ok(WholeNode([d, n]))
        else if |parts| == 2 then
          if exists i :: 0 <= i < |ln.children| && ln.children[i].kind.DataObject? && HasFC(ln.children[i], parts[1])
          then Ok(FCGroup([d, n], parts[1])) else Err
        else Dotted(site, ld.name, parts[0], parts[2..])
  }

  // ---- The client's names ----

  const FC_NONE: Text := [0x46, 0x43, 0x28, 0x2D, 0x31, 0x29]
  const FC_ALL: Text := [0x41, 0x4C, 0x4C]

  /** objectRefToMMS: domain and item. */
  function ObjectRefToMMS(ref: Text, fc: Text): Result<(Text, Text)> {
    match IndexOf(ref, SLASH)
    case None => Err
    case Some(k) =>
      var rest := ref[k + 1..];
      if fc == FC_NONE || fc == FC_ALL then Ok((ref[..k], rest))
      else
        match IndexOf(rest, DOT)
        case None => Ok((ref[..k], rest + [DOLLAR] + fc))
        case Some(dot) =>
          Ok((ref[..k], rest[..dot] + [DOLLAR] + fc + [DOLLAR] + Replace(rest[dot + 1..], DOT, DOLLAR)))
  }

  method ReplaceDots(s: Text) returns (out: array<byte>)
    ensures fresh(out) && out[..] == Replace(s, DOT, DOLLAR)
  {
    out := new byte[|s|];
    for i := 0 to |s|
      invariant forall j :: 0 <= j < i ==> out[j] == if s[j] == DOT then DOLLAR else s[j]
    {
      if s[i] == DOT {
        out[i] := DOLLAR;
      } else {
        out[i] := s[i];
      }
    }
  }

  /** namedVariablesForDomain, as a function of the site. */
  function NamedVariables(site: Site, domain: Text): seq<Text> {
    match FindLD(site, domain, 0)
    case None => []
    case Some(d) =>
      var ld := site.devices[d];
      Sort(Names(DeviceEntries([d], ld.children, ld.name, site.rcbs, 0)))
  }
}
