/** Listed names are distinct and lead back to what emitted them; client names resolve like dotted references. */
module NameResolution {
  import opened Bytes
  import opened BerIntegers
  import opened Texts
  import opened Model
  import opened FindNode
  import opened NameList
  import opened NameListing
  import Paging

  // ---- Where entries come from ----

  /** The entry stands below `at`, and its parts are the prefix and the names on the way. */
  predicate Placed(e: Entry, prefix: seq<Text>, at: Position, nodes: seq<Node>, tier: Tier) {
    && |at| < |e.at| && e.at[..|at|] == at && Leads(nodes, tier, e.at[|at|..])
    && e.parts == prefix + NamesAlong(nodes, tier, e.at[|at|..])
  }

  predicate AllPlaced(es: seq<Entry>, prefix: seq<Text>, at: Position, nodes: seq<Node>, tier: Tier) {
    forall i :: 0 <= i < |es| ==> Placed(es[i], prefix, at, nodes, tier)
  }

  lemma PlacedHead(prefix: seq<Text>, at: Position, nodes: seq<Node>, tier: Tier, k: nat)
    requires k < |nodes| && IsTier(nodes[k], tier)
    ensures Placed(Entry(prefix + [nodes[k].name], at + [k]), prefix, at, nodes, tier)
  {
    var p := [k];
    assert (at + p)[|at|..] == p && p[1..] == [];
    assert Leads(nodes[k].children, tier.Below(), p[1..]);
    assert NamesAlong(nodes, tier, p) == [nodes[k].name];
  }

  lemma PlacedUp(e: Entry, prefix: seq<Text>, at: Position, nodes: seq<Node>, tier: Tier, k: nat)
    requires k < |nodes| && IsTier(nodes[k], tier)
    requires Placed(e, prefix + [nodes[k].name], at + [k], nodes[k].children, tier.Below())
    ensures Placed(e, prefix, at, nodes, tier)
  {
    var q := e.at[|at + [k]|..];
    var p := e.at[|at|..];
    assert e.at[..|at|] == (at + [k])[..|at|] == at;
    assert p[0] == e.at[..|at + [k]|][|at|] == k;
    assert p[1..] == q;
    assert NamesAlong(nodes, tier, p) == [nodes[k].name] + NamesAlong(nodes[k].children, tier.Below(), q);
  }

  lemma {:induction false} AttributesPlaced(prefix: seq<Text>, at: Position, nodes: seq<Node>, fc: Option<Text>, k: nat)
    ensures AllPlaced(Attributes(prefix, at, nodes, fc, k), prefix, at, nodes, DA)
    decreases nodes, |nodes| - k
  {
    hide Placed;
    if k < |nodes| {
      AttributesPlaced(prefix, at, nodes, fc, k + 1);
      var n := nodes[k];
      if n.kind.DataAttribute? {
        PlacedHead(prefix, at, nodes, DA, k);
        AttributesPlaced(prefix + [n.name], at + [k], n.children, None, 0);
        var below := Attributes(prefix + [n.name], at + [k], n.children, None, 0);
        forall i | 0 <= i < |below| ensures Placed(below[i], prefix, at, nodes, DA) {
          PlacedUp(below[i], prefix, at, nodes, DA, k);
        }
      }
    }
  }

  predicate ObjectsAmong(which: seq<nat>, nodes: seq<Node>) {
    forall j :: 0 <= j < |which| ==> which[j] < |nodes| && nodes[which[j]].kind.DataObject?
  }

  lemma {:induction false} ObjectsPlaced(prefix: seq<Text>, at: Position, nodes: seq<Node>, fc: Text, which: seq<nat>)
    requires ObjectsAmong(which, nodes)
    ensures AllPlaced(Objects(prefix, at, nodes, fc, which), prefix, at, nodes, DO)
    decreases |which|
  {
    hide Placed;
    hide Attributes;
    if which != [] {
      var k := which[0];
      ObjectsPlaced(prefix, at, nodes, fc, which[1..]);
      PlacedHead(prefix, at, nodes, DO, k);
      AttributesPlaced(prefix + [nodes[k].name], at + [k], nodes[k].children, Some(fc), 0);
      var below := Attributes(prefix + [nodes[k].name], at + [k], nodes[k].children, Some(fc), 0);
      forall i | 0 <= i < |below| ensures Placed(below[i], prefix, at, nodes, DO) {
        PlacedUp(below[i], prefix, at, nodes, DO, k);
      }
    }
  }

  /** What the entries of a logical node are. */
  predicate FromNode(e: Entry, at: Position, ln: Node, ldInst: Text, rcbs: seq<RCB>) {
    || (exists fc: FCName :: fc in NodeFCs(ln.children, []) && FromGroup(e, at, ln, fc))
    || (e == Entry([ln.name, BR], at) && AnyControl(rcbs, ldInst, ln.name))
  }

  predicate FromGroup(e: Entry, at: Position, ln: Node, fc: Text) {
    e == Entry([ln.name, fc], at) || Placed(e, [ln.name, fc], at, ln.children, DO)
  }

  lemma {:induction false} GroupsFrom(at: Position, ln: Node, fcs: seq<Text>, e: Entry)
    requires e in Groups(at, ln, fcs)
    ensures exists fc :: fc in fcs && FromGroup(e, at, ln, fc)
    decreases |fcs|
  {
    hide Placed;
    hide Objects;
    hide ObjectsWith;
    if e in Group(at, ln, fcs[0]) {
      ObjectsPlaced([ln.name, fcs[0]], at, ln.children, fcs[0], ObjectsWith(ln.children, fcs[0], 0));
      assert FromGroup(e, at, ln, fcs[0]);
    } else {
      GroupsFrom(at, ln, fcs[1..], e);
      var fc :| fc in fcs[1..] && FromGroup(e, at, ln, fc);
      assert fc in fcs;
    }
  }

  lemma NodeEntriesFrom(at: Position, ln: Node, ldInst: Text, rcbs: seq<RCB>, e: Entry)
    requires e in NodeEntries(at, ln, ldInst, rcbs)
    ensures FromNode(e, at, ln, ldInst, rcbs)
  {
    hide FromGroup;
    hide Groups;
    hide Sort;
    var fcs := NodeFCs(ln.children, []);
    if e in Groups(at, ln, Sort(fcs)) {
      GroupsFrom(at, ln, Sort(fcs), e);
      var fc :| fc in Sort(fcs) && FromGroup(e, at, ln, fc);
      NodeFCsMembers(ln.children, []);
      SortDistinct(fcs);
      assert fc in fcs;
    }
  }

  lemma {:induction false} DeviceEntriesFrom(
    at: Position, nodes: seq<Node>, ldInst: Text, rcbs: seq<RCB>, k: nat, e: Entry) returns (n: nat)
    requires e in DeviceEntries(at, nodes, ldInst, rcbs, k)
    ensures n < |nodes| && nodes[n].kind.LogicalNode? && FromNode(e, at + [n], nodes[n], ldInst, rcbs)
    decreases |nodes| - k
  {
    hide FromNode;
    hide NodeEntries;
    if nodes[k].kind.LogicalNode? && e in NodeEntries(at + [k], nodes[k], ldInst, rcbs) {
      NodeEntriesFrom(at + [k], nodes[k], ldInst, rcbs, e);
      n := k;
    } else {
      n := DeviceEntriesFrom(at, nodes, ldInst, rcbs, k + 1, e);
    }
  }

  // ---- Preconditions on the names ----

  /** No separator in any name of the forest. */
  predicate Plain(nodes: seq<Node>)
    decreases nodes
  {
    forall i :: 0 <= i < |nodes| ==> PlainNode(nodes[i])
  }

  predicate PlainNode(n: Node)
    decreases n
  {
    DOT !in n.name && DOLLAR !in n.name && Plain(n.children)
  }

  /** The device is found under its own name, and its names are distinct among siblings and free of separators. */
  predicate WellNamed(site: Site, d: nat) {
    && d < |site.devices|
    && var ld := site.devices[d];
       && FirstNamed(site.devices, LD, ld.name) == Some(d) && SLASH !in ld.name
       && DistinctSiblings(ld.children) && Plain(ld.children)
  }

  lemma {:induction false} PlainNames(nodes: seq<Node>, tier: Tier, p: Position)
    requires Plain(nodes) && Leads(nodes, tier, p)
    ensures Free(NamesAlong(nodes, tier, p), DOT) && Free(NamesAlong(nodes, tier, p), DOLLAR)
    decreases |p|
  {
    if p != [] {
      assert PlainNode(nodes[p[0]]);
      PlainNames(nodes[p[0]].children, tier.Below(), p[1..]);
    }
  }

  /** The dotted path of a position below a well-named device is found at that position. */
  lemma DottedPathFound(site: Site, d: nat, n: nat, q: Position)
    requires WellNamed(site, d) && n < |site.devices[d].children| && site.devices[d].children[n].kind.LogicalNode?
    requires q != [] && Leads(site.devices[d].children[n].children, DO, q)
    ensures var ln := site.devices[d].children[n];
            Dotted(site, site.devices[d].name, ln.name, NamesAlong(ln.children, DO, q)) == Ok(Member([d, n] + q))
  {
    hide Find;
    hide Join;
    var ld := site.devices[d];
    var ln := ld.children[n];
    var p, below := [d, n] + q, [n] + q;
    var names := NamesAlong(ln.children, DO, q);
    assert p[1..] == below && below[1..] == q;
    assert Leads(ld.children, LN, below) && Leads(site.devices, LD, p);
    assert NamesAlong(ld.children, LN, below) == [ln.name] + names;
    assert NamesAlong(site.devices, LD, p) == [ld.name] + ([ln.name] + names);
    DistinctSiblingsSuffice(ld.children, LN, below);
    PlainNames(ld.children, LN, below);
    assert ([ld.name] + ([ln.name] + names))[1..] == [ln.name] + names;
    PathFindsNode(site.devices, p);
    assert Join([ln.name] + names, DOT) == ln.name + [DOT] + Join(names, DOT) by {
      JoinCons(ln.name, names, DOT);
    }
    assert ld.name + [SLASH] + (ln.name + [DOT] + Join(names, DOT)) == ld.name + [SLASH] + ln.name + [DOT] + Join(names, DOT);
  }

  lemma JoinCons(x: Text, rest: seq<Text>, sep: byte)
    requires rest != []
    ensures Join([x] + rest, sep) == x + [sep] + Join(rest, sep)
  {
    assert ([x] + rest)[1..] == rest;
  }

  // ---- Listed names lead back ----

  function Expected(e: Entry): Target
    requires |e.parts| >= 2
  {
    if |e.parts| > 2 then Member(e.at)
    else if e.parts[1] == BR then ControlGroup(e.at)
    else FCGroup(e.at, e.parts[1])
  }

  lemma FirstNodeFound(site: Site, d: nat, n: nat)
    requires WellNamed(site, d) && n < |site.devices[d].children| && site.devices[d].children[n].kind.LogicalNode?
    ensures FirstNamed(site.devices[d].children, LN, site.devices[d].children[n].name) == Some(n)
  {
    hide DistinctChildren;
    assert DistinctNames(site.devices[d].children);
  }

  lemma NamesAlongSize(nodes: seq<Node>, tier: Tier, p: Position)
    requires Leads(nodes, tier, p)
    ensures |NamesAlong(nodes, tier, p)| == |p|
  {
  }

  lemma NamesOfParts(e: Entry)
    requires e.parts != [] && Free(e.parts, DOLLAR)
    ensures Split(Name(e), DOLLAR) == e.parts
  {
    SplitInvertsJoin(e.parts, DOLLAR);
  }

  lemma GroupEntryResolves(site: Site, fields: set<Text>, domain: Text, d: nat, n: nat, e: Entry, fc: FCName)
    requires FindLD(site, domain, 0) == Some(d) && WellNamed(site, d)
    requires n < |site.devices[d].children| && site.devices[d].children[n].kind.LogicalNode?
    requires fc in NodeFCs(site.devices[d].children[n].children, []) && FromGroup(e, [d, n], site.devices[d].children[n], fc)
    ensures |e.parts| >= 2 && e.parts[1] == fc && e.parts[0] == site.devices[d].children[n].name && Free(e.parts, DOLLAR)
    ensures fc != BR ==> Resolve(site, fields, domain, Name(e)) == Ok(Expected(e))
  {
    hide Leads;
    hide NamesAlong;
    hide Name;
    hide Split;
    hide Find;
    hide FirstNamed;
    hide Join;
    hide Dotted;
    hide WellNamed;
    hide NodeFCs;
    hide HasFC;
    var ld := site.devices[d];
    var ln := ld.children[n];
    FirstNodeFound(site, d, n);
    PlainLN(site, d, n);
    NodeFCsMembers(ln.children, []);
    if Placed(e, [ln.name, fc], [d, n], ln.children, DO) {
      var q := e.at[2..];
      assert e.at == [d, n] + q;
      PlainNames(ln.children, DO, q);
      assert e.parts == [ln.name, fc] + NamesAlong(ln.children, DO, q);
      assert e.parts[2..] == NamesAlong(ln.children, DO, q);
      NamesAlongSize(ln.children, DO, q);
      NamesOfParts(e);
      DottedPathFound(site, d, n, q);
    } else {
      NamesOfParts(e);
      assert Occurs(ln.children, fc, |ln.children|);
    }
  }

  lemma PlainLN(site: Site, d: nat, n: nat)
    requires WellNamed(site, d) && n < |site.devices[d].children|
    ensures DOLLAR !in site.devices[d].children[n].name && Plain(site.devices[d].children[n].children)
  {
    assert PlainNode(site.devices[d].children[n]);
  }

  /** A logical node `n` of device `d`, as an emitter of entries. */
  predicate Emits(site: Site, d: nat, n: nat, e: Entry) {
    && d < |site.devices| && n < |site.devices[d].children| && site.devices[d].children[n].kind.LogicalNode?
    && FromNode(e, [d, n], site.devices[d].children[n], site.devices[d].name, site.rcbs)
  }

  lemma ControlResolves(site: Site, fields: set<Text>, domain: Text, d: nat, n: nat, e: Entry)
    requires FindLD(site, domain, 0) == Some(d) && WellNamed(site, d)
    requires n < |site.devices[d].children| && site.devices[d].children[n].kind.LogicalNode?
    requires |e.parts| >= 2 && e.parts[0] == site.devices[d].children[n].name && e.parts[1] == BR
    requires Free(e.parts, DOLLAR) && (|e.parts| == 2 ==> e.at == [d, n])
    ensures Resolve(site, fields, domain, Name(e)) == Ok(Expected(e))
       <==> |e.parts| == 2 && AnyControl(site.rcbs, site.devices[d].name, e.parts[0])
  {
    hide Name;
    hide Split;
    hide FirstNamed;
    hide WellNamed;
    hide AnyControl;
    hide KnownControl;
    hide Dotted;
    FirstNodeFound(site, d, n);
    NamesOfParts(e);
  }

  lemma EmittedResolvesExactly(site: Site, fields: set<Text>, domain: Text, d: nat, n: nat, e: Entry)
    requires FindLD(site, domain, 0) == Some(d) && WellNamed(site, d) && Emits(site, d, n, e)
    ensures |e.parts| >= 2 && e.parts[0] == site.devices[d].children[n].name && Free(e.parts, DOLLAR)
    ensures Resolve(site, fields, domain, Name(e)) == Ok(Expected(e))
       <==> e.parts[1] != BR || (|e.parts| == 2 && AnyControl(site.rcbs, site.devices[d].name, e.parts[0]))
  {
    hide Resolve;
    hide Expected;
    hide WellNamed;
    hide AnyControl;
    hide Name;
    hide NodeFCs;
    hide Leads;
    hide NamesAlong;
    var ld := site.devices[d];
    var ln := ld.children[n];
    PlainLN(site, d, n);
    if fc: FCName :| fc in NodeFCs(ln.children, []) && FromGroup(e, [d, n], ln, fc) {
      GroupEntryResolves(site, fields, domain, d, n, e, fc);
      if fc == BR {
        ControlResolves(site, fields, domain, d, n, e);
      }
    } else {
      ControlResolves(site, fields, domain, d, n, e);
    }
  }

  function EntriesOf(site: Site, d: nat): seq<Entry>
    requires d < |site.devices|
  {
    DeviceEntries([d], site.devices[d].children, site.devices[d].name, site.rcbs, 0)
  }

  /**
   * A listed name resolves to what emitted it (the attribute or object itself, the group, the control blocks)
   * if and only if its constraint is not BR, or it is the name of the control block group of its node.
   */
  lemma EntryResolvesExactly(site: Site, fields: set<Text>, domain: Text, d: nat, e: Entry)
    requires FindLD(site, domain, 0) == Some(d) && WellNamed(site, d) && e in EntriesOf(site, d)
    ensures |e.parts| >= 2
    ensures Resolve(site, fields, domain, Name(e)) == Ok(Expected(e))
       <==> e.parts[1] != BR || (|e.parts| == 2 && AnyControl(site.rcbs, site.devices[d].name, e.parts[0]))
  {
    hide Resolve;
    hide DeviceEntries;
    hide FromNode;
    hide WellNamed;
    var n := DeviceEntriesFrom([d], site.devices[d].children, site.devices[d].name, site.rcbs, 0, e);
    assert [d] + [n] == [d, n];
    EmittedResolvesExactly(site, fields, domain, d, n, e);
  }

  /** A listed attribute of constraint BR, on a node without control blocks, cannot be read under its name. */
  lemma BRAttributeUnreadable(da: Node, fields: set<Text>)
    requires da.kind == DataAttribute(BR, 0)
    ensures var ln := Node([0x4C], LogicalNode, [Node([0x4F], DataObject, [da])]);
            var site := Site([], [Node([0x44], LogicalDevice([]), [ln])], []);
            Resolve(site, fields, [0x44], [0x4C, DOLLAR] + BR) == Err
  {
    var ln := Node([0x4C], LogicalNode, [Node([0x4F], DataObject, [da])]);
    var site := Site([], [Node([0x44], LogicalDevice([]), [ln])], []);
    assert [] + [0x44] == [0x44];
    var parts := [[0x4C], BR];
    assert parts[1..] == [BR];
    assert Join(parts, DOLLAR) == [0x4C, DOLLAR] + BR;
    SplitInvertsJoin(parts, DOLLAR);
  }

  // ---- No name is listed twice ----

  predicate DistinctParts(es: seq<Entry>) {
    forall i, j :: 0 <= i < j < |es| ==> es[i].parts != es[j].parts
  }

  /** All entries share `prefix` and continue it by one of `keys`. */
  predicate KeyedBy(es: seq<Entry>, prefix: seq<Text>, keys: set<Text>) {
    forall i :: 0 <= i < |es| ==> Keyed(es[i].parts, prefix, keys)
  }

  predicate Keyed(parts: seq<Text>, prefix: seq<Text>, keys: set<Text>) {
    |parts| > |prefix| && parts[..|prefix|] == prefix && parts[|prefix|] in keys
  }

  lemma KeyedJoin(a: seq<Entry>, b: seq<Entry>, prefix: seq<Text>, ka: set<Text>, kb: set<Text>)
    requires KeyedBy(a, prefix, ka) && KeyedBy(b, prefix, kb) && ka !! kb
    requires DistinctParts(a) && DistinctParts(b)
    ensures DistinctParts(a + b) && KeyedBy(a + b, prefix, ka + kb)
  {
    forall i, j | 0 <= i < |a| && 0 <= j < |b| ensures a[i].parts != b[j].parts {
      assert Keyed(a[i].parts, prefix, ka) && Keyed(b[j].parts, prefix, kb);
    }
    forall i | 0 <= i < |a + b| ensures Keyed((a + b)[i].parts, prefix, ka + kb) {
      assert Keyed((a + b)[i].parts, prefix, if i < |a| then ka else kb);
    }
  }

  lemma KeyedUp(parts: seq<Text>, prefix: seq<Text>, x: Text, keys: set<Text>)
    requires Keyed(parts, prefix + [x], keys)
    ensures Keyed(parts, prefix, {x})
  {
    assert parts[..|prefix|] == parts[..|prefix| + 1][..|prefix|];
    assert parts[|prefix|] == parts[..|prefix| + 1][|prefix|];
  }

  /** A heading entry and the entries below it. */
  lemma KeyedBlock(prefix: seq<Text>, x: Text, at: Position, below: seq<Entry>, keys: set<Text>)
    requires KeyedBy(below, prefix + [x], keys) && DistinctParts(below)
    ensures var block := [Entry(prefix + [x], at)] + below;
            DistinctParts(block) && KeyedBy(block, prefix, {x})
  {
    var block := [Entry(prefix + [x], at)] + below;
    forall i | 0 <= i < |below| ensures |below[i].parts| > |prefix| + 1 && Keyed(below[i].parts, prefix, {x}) {
      KeyedUp(below[i].parts, prefix, x, keys);
    }
    forall i | 0 <= i < |block| ensures Keyed(block[i].parts, prefix, {x}) {
    }
  }

  function NamesFrom(nodes: seq<Node>, k: nat): set<Text> {
    set j | k <= j < |nodes| :: nodes[j].name
  }

  lemma NamesFromNext(nodes: seq<Node>, k: nat)
    requires k < |nodes|
    ensures NamesFrom(nodes, k) == {nodes[k].name} + NamesFrom(nodes, k + 1)
    ensures DistinctNames(nodes) ==> {nodes[k].name} !! NamesFrom(nodes, k + 1)
  {
  }

  lemma {:induction false} AttributesDistinct(prefix: seq<Text>, at: Position, nodes: seq<Node>, fc: Option<Text>, k: nat)
    requires DistinctSiblings(nodes)
    ensures var es := Attributes(prefix, at, nodes, fc, k);
            DistinctParts(es) && KeyedBy(es, prefix, NamesFrom(nodes, k))
    decreases nodes, |nodes| - k
  {
    hide DistinctParts;
    hide KeyedBy;
    hide NamesFrom;
    hide DistinctSiblings;
    NothingDistinct(prefix, NamesFrom(nodes, k));
    if k < |nodes| {
      var n := nodes[k];
      ChildrenDistinct(nodes, k);
      AttributesDistinct(prefix, at, nodes, fc, k + 1);
      NamesFromNext(nodes, k);
      AttributesDistinct(prefix + [n.name], at + [k], n.children, None, 0);
      var below := Attributes(prefix + [n.name], at + [k], n.children, None, 0);
      KeyedBlock(prefix, n.name, at + [k], below, NamesFrom(n.children, 0));
      NothingDistinct(prefix, {n.name});
      var here := if n.kind.DataAttribute? && (fc.None? || n.kind.fc == fc.value) then Attribute(prefix, at + [k], n) else [];
      KeyedJoin(here, Attributes(prefix, at, nodes, fc, k + 1), prefix, {n.name}, NamesFrom(nodes, k + 1));
    }
  }

  lemma ChildrenDistinct(nodes: seq<Node>, k: nat)
    requires DistinctSiblings(nodes) && k < |nodes|
    ensures DistinctNames(nodes) && DistinctSiblings(nodes[k].children)
  {
    assert DistinctChildren(nodes[k]);
  }

  lemma NothingDistinct(prefix: seq<Text>, keys: set<Text>)
    ensures DistinctParts([]) && KeyedBy([], prefix, keys)
  {
  }

  function NamesAmong(nodes: seq<Node>, which: seq<nat>): set<Text>
    requires Indices(which, nodes)
  {
    set j | 0 <= j < |which| :: nodes[which[j]].name
  }

  lemma NamesAmongNext(nodes: seq<Node>, which: seq<nat>)
    requires Indices(which, nodes) && which != []
    ensures NamesAmong(nodes, which) == {nodes[which[0]].name} + NamesAmong(nodes, which[1..])
    ensures DistinctNames(nodes) && Distinct(which) ==> {nodes[which[0]].name} !! NamesAmong(nodes, which[1..])
  {
    var rest := which[1..];
    forall x ensures x in NamesAmong(nodes, which) <==> x == nodes[which[0]].name || x in NamesAmong(nodes, rest) {
      if j :| 0 < j < |which| && nodes[which[j]].name == x {
        assert rest[j - 1] == which[j];
      }
    }
    if DistinctNames(nodes) && Distinct(which) {
      forall j | 0 <= j < |rest| ensures nodes[rest[j]].name != nodes[which[0]].name {
        assert rest[j] == which[j + 1] != which[0];
      }
    }
  }

  lemma {:induction false} ObjectsDistinct(prefix: seq<Text>, at: Position, nodes: seq<Node>, fc: Text, which: seq<nat>)
    requires DistinctSiblings(nodes) && Indices(which, nodes) && Distinct(which)
    ensures var es := Objects(prefix, at, nodes, fc, which);
            DistinctParts(es) && KeyedBy(es, prefix, NamesAmong(nodes, which))
    decreases |which|
  {
    hide DistinctParts;
    hide KeyedBy;
    hide NamesAmong;
    hide NamesFrom;
    hide DistinctSiblings;
    hide Attributes;
    NothingDistinct(prefix, NamesAmong(nodes, which));
    if which != [] {
      var n := nodes[which[0]];
      ChildrenDistinct(nodes, which[0]);
      ObjectsDistinct(prefix, at, nodes, fc, which[1..]);
      NamesAmongNext(nodes, which);
      AttributesDistinct(prefix + [n.name], at + [which[0]], n.children, Some(fc), 0);
      var below := Attributes(prefix + [n.name], at + [which[0]], n.children, Some(fc), 0);
      KeyedBlock(prefix, n.name, at + [which[0]], below, NamesFrom(n.children, 0));
      var block := [Entry(prefix + [n.name], at + [which[0]])] + below;
      KeyedJoin(block, Objects(prefix, at, nodes, fc, which[1..]), prefix, {n.name}, NamesAmong(nodes, which[1..]));
    }
  }

  lemma {:induction false} ObjectsWithDistinct(nodes: seq<Node>, fc: Text, k: nat)
    ensures Distinct(ObjectsWith(nodes, fc, k))
    decreases |nodes| - k
  {
    hide HasFC;
    if k < |nodes| {
      ObjectsWithDistinct(nodes, fc, k + 1);
    }
  }

  lemma {:induction false} GroupsDistinct(at: Position, ln: Node, fcs: seq<Text>)
    requires DistinctSiblings(ln.children) && Distinct(fcs)
    ensures DistinctParts(Groups(at, ln, fcs)) && KeyedBy(Groups(at, ln, fcs), [ln.name], set fc | fc in fcs)
    decreases |fcs|
  {
    hide DistinctParts;
    hide KeyedBy;
    hide NamesAmong;
    hide DistinctSiblings;
    hide Objects;
    hide ObjectsWith;
    NothingDistinct([ln.name], set fc | fc in fcs);
    if fcs != [] {
      var fc := fcs[0];
      var which := ObjectsWith(ln.children, fc, 0);
      ObjectsWithDistinct(ln.children, fc, 0);
      assert [ln.name] + [fc] == [ln.name, fc];
      ObjectsDistinct([ln.name, fc], at, ln.children, fc, which);
      KeyedBlock([ln.name], fc, at, Objects([ln.name, fc], at, ln.children, fc, which), NamesAmong(ln.children, which));
      GroupsDistinct(at, ln, fcs[1..]);
      assert (set f | f in fcs) == {fc} + set f | f in fcs[1..];
      assert fc !in fcs[1..];
      KeyedJoin(Group(at, ln, fc), Groups(at, ln, fcs[1..]), [ln.name], {fc}, set f | f in fcs[1..]);
    }
  }

  /** No attribute of constraint BR stands beside a control block. */
  predicate NoClash(ln: Node, ldInst: Text, rcbs: seq<RCB>) {
    AnyControl(rcbs, ldInst, ln.name) ==> BR !in NodeFCs(ln.children, [])
  }

  lemma NodeDistinct(at: Position, ln: Node, ldInst: Text, rcbs: seq<RCB>)
    requires DistinctSiblings(ln.children) && NoClash(ln, ldInst, rcbs)
    ensures var es := NodeEntries(at, ln, ldInst, rcbs);
            DistinctParts(es) && KeyedBy(es, [], {ln.name})
  {
    hide DistinctParts;
    hide DistinctSiblings;
    hide Groups;
    hide NodeFCs;
    hide Sort;
    hide AnyControl;
    var fcs := NodeFCs(ln.children, []);
    var groups := Groups(at, ln, Sort(fcs));
    NodeFCsMembers(ln.children, []);
    SortDistinct(fcs);
    IncreasingDistinct(Sort(fcs));
    GroupsDistinct(at, ln, Sort(fcs));
    var control := if AnyControl(rcbs, ldInst, ln.name) then [Entry([ln.name, BR], at)] else [];
    assert DistinctParts(control) by {
      OneDistinct(control);
    }
    var keys := if AnyControl(rcbs, ldInst, ln.name) then {BR} else {};
    KeyedJoin(groups, control, [ln.name], (set fc | fc in Sort(fcs)), keys);
    var es := NodeEntries(at, ln, ldInst, rcbs);
    assert [] + [ln.name] == [ln.name];
    forall i | 0 <= i < |es| ensures Keyed(es[i].parts, [], {ln.name}) {
      KeyedUp(es[i].parts, [], ln.name, (set fc | fc in Sort(fcs)) + keys);
    }
  }

  lemma OneDistinct(es: seq<Entry>)
    requires |es| <= 1
    ensures DistinctParts(es)
  {
  }

  lemma IncreasingDistinct(s: seq<Text>)
    requires Increasing(s)
    ensures Distinct(s)
  {
    hide Less;
    forall i, j | 0 <= i < j < |s| ensures s[i] != s[j] {
      LessTotal(s[i], s[j]);
    }
  }

  predicate NoClashes(nodes: seq<Node>, ldInst: Text, rcbs: seq<RCB>) {
    forall i :: 0 <= i < |nodes| ==> NoClash(nodes[i], ldInst, rcbs)
  }

  lemma {:induction false} DeviceDistinct(at: Position, nodes: seq<Node>, ldInst: Text, rcbs: seq<RCB>, k: nat)
    requires DistinctSiblings(nodes) && NoClashes(nodes, ldInst, rcbs)
    ensures var es := DeviceEntries(at, nodes, ldInst, rcbs, k);
            DistinctParts(es) && KeyedBy(es, [], NamesFrom(nodes, k))
    decreases |nodes| - k
  {
    hide DistinctParts;
    hide KeyedBy;
    hide NamesFrom;
    hide DistinctSiblings;
    hide NodeEntries;
    hide NoClash;
    NothingDistinct([], NamesFrom(nodes, k));
    if k < |nodes| {
      ChildrenDistinct(nodes, k);
      NamesFromNext(nodes, k);
      DeviceDistinct(at, nodes, ldInst, rcbs, k + 1);
      NodeDistinct(at + [k], nodes[k], ldInst, rcbs);
      NothingDistinct([], {nodes[k].name});
      var here := if nodes[k].kind.LogicalNode? then NodeEntries(at + [k], nodes[k], ldInst, rcbs) else [];
      KeyedJoin(here, DeviceEntries(at, nodes, ldInst, rcbs, k + 1), [], {nodes[k].name}, NamesFrom(nodes, k + 1));
    }
  }

  /** The list a client pages through is strictly increasing, and holds exactly the names of the entries. */
  lemma ListingIncreasing(site: Site, domain: Text, d: nat)
    requires FindLD(site, domain, 0) == Some(d) && WellNamed(site, d)
    requires NoClashes(site.devices[d].children, site.devices[d].name, site.rcbs)
    ensures Increasing(NamedVariables(site, domain))
    ensures forall x :: x in NamedVariables(site, domain)
                   <==> exists i :: 0 <= i < |EntriesOf(site, d)| && Name(EntriesOf(site, d)[i]) == x
  {
    hide Name;
    hide DeviceEntries;
    hide NoClashes;
    hide Sort;
    var ld := site.devices[d];
    var es := EntriesOf(site, d);
    DeviceDistinct([d], ld.children, ld.name, site.rcbs, 0);
    forall i, j | 0 <= i < j < |es| ensures Names(es)[i] != Names(es)[j] {
      EntrySplits(site, domain, d, es[i]);
      EntrySplits(site, domain, d, es[j]);
    }
    SortDistinct(Names(es));
    forall x ensures x in Names(es) <==> exists i :: 0 <= i < |es| && Name(es[i]) == x {
    }
  }

  lemma EntrySplits(site: Site, domain: Text, d: nat, e: Entry)
    requires FindLD(site, domain, 0) == Some(d) && WellNamed(site, d) && e in EntriesOf(site, d)
    ensures Split(Name(e), DOLLAR) == e.parts
  {
    hide DeviceEntries;
    hide Resolve;
    hide FromNode;
    hide WellNamed;
    var n := DeviceEntriesFrom([d], site.devices[d].children, site.devices[d].name, site.rcbs, 0, e);
    assert [d] + [n] == [d, n];
    EmittedResolvesExactly(site, {}, domain, d, n, e);
    NamesOfParts(e);
  }

  /** Every name has a separator, so none is empty; being distinct, the names can be paged through. */
  lemma ListingPageable(site: Site, domain: Text, d: nat)
    requires FindLD(site, domain, 0) == Some(d) && WellNamed(site, d)
    requires NoClashes(site.devices[d].children, site.devices[d].name, site.rcbs)
    ensures var names := NamedVariables(site, domain);
            Distinct(names) && forall i :: 0 <= i < |names| ==> names[i] != []
  {
    hide NamedVariables;
    hide DeviceEntries;
    hide NoClashes;
    hide WellNamed;
    hide Name;
    var names := NamedVariables(site, domain);
    ListingIncreasing(site, domain, d);
    IncreasingDistinct(names);
    forall i | 0 <= i < |names| ensures names[i] != [] {
      assert names[i] in names;
      var j :| 0 <= j < |EntriesOf(site, d)| && Name(EntriesOf(site, d)[j]) == names[i];
      EntrySplits(site, domain, d, EntriesOf(site, d)[j]);
      EntryResolvesExactly(site, {}, domain, d, EntriesOf(site, d)[j]);
    }
  }

  const NAMED_VARIABLE_CLASS := 0

  /** A client that pages through a domain ends up with the whole listing, or with all before a name over 59998 octets. */
  method Browse(site: Site, domain: Text, ghost d: nat, firstID: uint32) returns (r: seq<Text>)
    requires |domain| < 0x1000_0000
    requires FindLD(site, domain, 0) == Some(d) && WellNamed(site, d)
    requires NoClashes(site.devices[d].children, site.devices[d].name, site.rcbs)
    ensures r == Paging.ServablePrefix(NamedVariables(site, domain))
  {
    hide NamedVariables;
    ListingPageable(site, domain, d);
    var directory := (objectClass: int, dom: Text) => if objectClass == NAMED_VARIABLE_CLASS then NamedVariables(site, dom) else [];
    Paging.DistinctIsClean(NamedVariables(site, domain), 0);
    r := Paging.GetNameList(directory, NAMED_VARIABLE_CLASS, domain, firstID);
  }

  // ---- Client references ----

  /** Dotted lookup of the reference, in the device that serves the domain. */
  function LookedUp(devices: seq<Node>, ref: Text): Result<Target> {
    match Find(devices, ref)
    case None => Err
    case Some(p) => if |p| >= 3 then Ok(Member(p)) else Err
  }

  lemma SplitCons(a: Text, sep: byte, s: Text)
    requires sep !in a
    ensures Split(a + [sep] + s, sep) == [a] + Split(s, sep)
  {
    var t := a + [sep] + s;
    IndexOfPrefix(a, sep, s);
    assert t[..|a|] == a && t[|a| + 1..] == s;
  }

  /** Dots turned to dollars, split, and joined with dots: the same as reading dollars as dots. */
  lemma DotsAgain(doPart: Text)
    ensures Join(Split(Replace(doPart, DOT, DOLLAR), DOLLAR), DOT) == Replace(doPart, DOLLAR, DOT)
  {
    hide Split;
    hide Join;
    var r := Replace(doPart, DOT, DOLLAR);
    JoinInvertsSplit(r, DOLLAR);
    ReplaceJoin(Split(r, DOLLAR), DOLLAR, DOT);
    assert Replace(r, DOLLAR, DOT) == Replace(doPart, DOLLAR, DOT);
  }

  lemma ReplaceAround(a: Text, b: Text)
    requires DOLLAR !in a
    ensures Replace(a + [DOT] + b, DOLLAR, DOT) == a + [DOT] + Replace(b, DOLLAR, DOT)
    ensures Replace(Replace(b, DOLLAR, DOT), DOLLAR, DOT) == Replace(b, DOLLAR, DOT)
  {
  }

  /** Find depends on the part behind the slash only up to `$` and dot. */
  lemma FindInDevice(devices: seq<Node>, d: nat, lnPart: Text, below: Text)
    requires d < |devices| && FirstNamed(devices, LD, devices[d].name) == Some(d) && SLASH !in devices[d].name
    requires DOT !in lnPart && DOLLAR !in lnPart
    ensures Find(devices, devices[d].name + [SLASH] + (lnPart + [DOT] + below))
         == Prepend(d, FindBelow(devices[d].children, LN, [lnPart] + Split(Replace(below, DOLLAR, DOT), DOT)))
  {
    hide Split;
    hide FindBelow;
    var name, rest := devices[d].name, lnPart + [DOT] + below;
    var ref := name + [SLASH] + rest;
    IndexOfPrefix(name, SLASH, rest);
    assert ref[..|name|] == name && ref[|name| + 1..] == rest;
    ReplaceAround(lnPart, below);
    SplitCons(lnPart, DOT, Replace(below, DOLLAR, DOT));
  }

  lemma ItemParts(lnPart: Text, fc: FCName, doPart: Text)
    requires DOLLAR !in lnPart
    ensures Split(lnPart + [DOLLAR] + fc + [DOLLAR] + Replace(doPart, DOT, DOLLAR), DOLLAR)
         == [lnPart, fc] + Split(Replace(doPart, DOT, DOLLAR), DOLLAR)
  {
    hide Split;
    var tail := Replace(doPart, DOT, DOLLAR);
    SplitCons(fc, DOLLAR, tail);
    SplitCons(lnPart, DOLLAR, fc + [DOLLAR] + tail);
    assert lnPart + [DOLLAR] + (fc + [DOLLAR] + tail) == lnPart + [DOLLAR] + fc + [DOLLAR] + tail;
    assert [lnPart] + ([fc] + Split(tail, DOLLAR)) == [lnPart, fc] + Split(tail, DOLLAR);
  }

  /**
   * What the server reads for a client's reference with a data object part is what the dotted reference
   * names in the device that serves the domain, whatever the constraint (BR, NONE and ALL aside).
   */
  lemma ReferenceResolves(site: Site, fields: set<Text>, d: nat, lnPart: Text, doPart: Text, domain: Text, fc: FCName)
    requires FindLD(site, domain, 0) == Some(d) && SLASH !in domain
    requires FirstNamed(site.devices, LD, site.devices[d].name) == Some(d) && SLASH !in site.devices[d].name
    requires DOT !in lnPart && DOLLAR !in lnPart
    requires fc != BR && fc != FC_NONE && fc != FC_ALL
    ensures var ref := domain + [SLASH] + (lnPart + [DOT] + doPart);
            var named := ObjectRefToMMS(ref, fc);
            && named.Ok?
            && Resolve(site, fields, named.value.0, named.value.1)
            == LookedUp(site.devices, site.devices[d].name + [SLASH] + (lnPart + [DOT] + doPart))
  {
    hide Split;
    hide Join;
    hide Find;
    hide FindLD;
    hide ResolveControl;
    hide HasFC;
    hide Resolve;
    hide LookedUp;
    hide ObjectRefToMMS;
    hide Replace;
    hide FirstNamed;
    ReferenceSplits(domain, lnPart, doPart, fc);
    ItemParts(lnPart, fc, doPart);
    var parts := Split(Replace(doPart, DOT, DOLLAR), DOLLAR);
    assert ([lnPart, fc] + parts)[2..] == parts;
    LongItem(site, fields, domain, d, lnPart + [DOLLAR] + fc + [DOLLAR] + Replace(doPart, DOT, DOLLAR));
    DottedIsLookedUp(site, d, lnPart, doPart);
  }

  /** An item of three or more parts that names no control block. */
  lemma LongItem(site: Site, fields: set<Text>, domain: Text, d: nat, item: Text)
    requires FindLD(site, domain, 0) == Some(d)
    requires |Split(item, DOLLAR)| >= 3 && Split(item, DOLLAR)[1] != BR
    ensures var parts := Split(item, DOLLAR);
            (Resolve(site, fields, domain, item)
             == if FirstNamed(site.devices[d].children, LN, parts[0]).None? then Err
                else Dotted(site, site.devices[d].name, parts[0], parts[2..]))
  {
    hide Split;
    hide Dotted;
    hide FindLD;
    hide HasFC;
  }

  lemma DottedIsLookedUp(site: Site, d: nat, lnPart: Text, doPart: Text)
    requires d < |site.devices|
    requires FirstNamed(site.devices, LD, site.devices[d].name) == Some(d) && SLASH !in site.devices[d].name
    requires DOT !in lnPart && DOLLAR !in lnPart
    ensures LookedUp(site.devices, site.devices[d].name + [SLASH] + (lnPart + [DOT] + doPart))
         == if FirstNamed(site.devices[d].children, LN, lnPart).None? then Err
            else Dotted(site, site.devices[d].name, lnPart, Split(Replace(doPart, DOT, DOLLAR), DOLLAR))
  {
    hide Split;
    hide Join;
    hide Find;
    hide FindBelow;
    hide Replace;
    hide FirstNamed;
    var ld := site.devices[d];
    var parts := Split(Replace(doPart, DOT, DOLLAR), DOLLAR);
    DotsAgain(doPart);
    FindInDevice(site.devices, d, lnPart, doPart);
    FindInDevice(site.devices, d, lnPart, Replace(doPart, DOLLAR, DOT));
    ReplaceAround(lnPart, doPart);
    if FirstNamed(ld.children, LN, lnPart).None? {
      MissingNode(ld.children, lnPart, Split(Replace(doPart, DOLLAR, DOT), DOT));
    }
    assert ld.name + [SLASH] + lnPart + [DOT] + Join(parts, DOT) == ld.name + [SLASH] + (lnPart + [DOT] + Join(parts, DOT));
  }

  lemma MissingNode(nodes: seq<Node>, lnPart: Text, rest: seq<Text>)
    requires FirstNamed(nodes, LN, lnPart).None?
    ensures FindBelow(nodes, LN, [lnPart] + rest).None?
  {
  }

  lemma ReferenceSplits(domain: Text, lnPart: Text, doPart: Text, fc: FCName)
    requires SLASH !in domain && DOT !in lnPart && fc != FC_NONE && fc != FC_ALL
    ensures ObjectRefToMMS(domain + [SLASH] + (lnPart + [DOT] + doPart), fc)
         == Ok((domain, lnPart + [DOLLAR] + fc + [DOLLAR] + Replace(doPart, DOT, DOLLAR)))
  {
    var rest := lnPart + [DOT] + doPart;
    var ref := domain + [SLASH] + rest;
    IndexOfPrefix(domain, SLASH, rest);
    assert ref[..|domain|] == domain && ref[|domain| + 1..] == rest;
    IndexOfPrefix(lnPart, DOT, doPart);
    assert rest[..|lnPart|] == lnPart && rest[|lnPart| + 1..] == doPart;
  }
}
