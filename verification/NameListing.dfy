/** The loops of namedVariablesForDomain, whose map iteration runs in any order. */
module NameListing {
  import opened Bytes
  import opened Texts
  import opened Model
  import opened NameList

  // ---- Which constraints occur ----

  ghost predicate Occurs(nodes: seq<Node>, fc: Text, k: nat) {
    exists i :: 0 <= i < k && i < |nodes| && nodes[i].kind.DataObject? && HasFC(nodes[i], fc)
  }

  lemma {:induction false} ObjectFCsMembers(attributes: seq<Node>, seen: seq<FCName>)
    requires Distinct(seen)
    ensures Distinct(ObjectFCs(attributes, seen))
    ensures forall fc :: fc in ObjectFCs(attributes, seen)
                    <==> fc in seen || exists i :: 0 <= i < |attributes| && OfFC(attributes[i], fc)
    decreases |attributes|
  {
    if attributes != [] {
      var k := attributes[0].kind;
      var seen' := if k.DataAttribute? && k.fc !in seen then seen + [k.fc] else seen;
      ObjectFCsMembers(attributes[1..], seen');
      forall fc ensures (exists i :: 0 <= i < |attributes| && OfFC(attributes[i], fc))
                   <==> OfFC(attributes[0], fc) || exists i :: 0 <= i < |attributes[1..]| && OfFC(attributes[1..][i], fc) {
        if i :| 0 < i < |attributes| && OfFC(attributes[i], fc) {
          assert attributes[1..][i - 1] == attributes[i];
        }
      }
    }
  }

  lemma {:induction false} NodeFCsMembers(nodes: seq<Node>, seen: seq<FCName>)
    requires Distinct(seen)
    ensures Distinct(NodeFCs(nodes, seen))
    ensures forall fc :: fc in NodeFCs(nodes, seen) <==> fc in seen || Occurs(nodes, fc, |nodes|)
    decreases |nodes|
  {
    hide ObjectFCs;
    if nodes != [] {
      var seen' := if nodes[0].kind.DataObject? then ObjectFCs(nodes[0].children, seen) else seen;
      ObjectFCsMembers(nodes[0].children, seen);
      NodeFCsMembers(nodes[1..], seen');
      forall fc ensures fc in seen' <==> fc in seen || (nodes[0].kind.DataObject? && HasFC(nodes[0], fc)) {
      }
      forall fc ensures Occurs(nodes, fc, |nodes|)
                   <==> (nodes[0].kind.DataObject? && HasFC(nodes[0], fc)) || Occurs(nodes[1..], fc, |nodes| - 1) {
        OccursFirst(nodes, fc);
      }
    }
  }

  lemma OccursFirst(nodes: seq<Node>, fc: Text)
    requires nodes != []
    ensures Occurs(nodes, fc, |nodes|)
       <==> (nodes[0].kind.DataObject? && HasFC(nodes[0], fc)) || Occurs(nodes[1..], fc, |nodes| - 1)
  {
    hide HasFC;
    if i :| 0 < i < |nodes| && nodes[i].kind.DataObject? && HasFC(nodes[i], fc) {
      assert nodes[1..][i - 1] == nodes[i];
    }
  }

  // ---- Grouping ----

  /** The doFCs set of one data object. */
  method FCsOfObject(n: Node) returns (fcs: set<Text>)
    ensures forall fc :: fc in fcs <==> HasFC(n, fc)
  {
    fcs := {};
    for j := 0 to |n.children|
      invariant forall fc :: fc in fcs <==> exists i :: 0 <= i < j && OfFC(n.children[i], fc)
    {
      var k := n.children[j].kind;
      if k.DataAttribute? {
        assert OfFC(n.children[j], k.fc);
        fcs := fcs + {k.fc};
      }
    }
  }

  function Listed(fcDOs: map<Text, seq<nat>>, fc: Text): seq<nat> {
    if fc in fcDOs then fcDOs[fc] else []
  }

  /** What is grouped once the objects before index `k` have been seen. */
  ghost predicate Grouped(nodes: seq<Node>, k: nat, fcOrder: seq<Text>, fcDOs: map<Text, seq<nat>>) {
    && Distinct(fcOrder)
    && (forall fc :: fc in fcOrder <==> Occurs(nodes, fc, k))
    && (forall fc :: Listed(fcDOs, fc) + ObjectsWith(nodes, fc, k) == ObjectsWith(nodes, fc, 0))
  }

  /** One data object joins the groups of its constraints, in whatever order the set yields them. */
  method JoinGroups(nodes: seq<Node>, k: nat, fcs: set<Text>, fcOrder: seq<Text>, fcDOs: map<Text, seq<nat>>)
    returns (fcOrder': seq<Text>, fcDOs': map<Text, seq<nat>>)
    requires k < |nodes| && nodes[k].kind.DataObject?
    requires forall fc :: fc in fcs <==> HasFC(nodes[k], fc)
    requires Grouped(nodes, k, fcOrder, fcDOs)
    ensures Grouped(nodes, k + 1, fcOrder', fcDOs')
  {
    hide HasFC;
    hide Joined;
    hide Grouped;
    hide Listed;
    fcOrder', fcDOs' := fcOrder, fcDOs;
    JoinedNone(k, fcOrder, fcDOs);
    assert fcs - fcs == {};
    OrderDistinct(nodes, k, fcOrder, fcDOs);
    var left := fcs;
    while left != {}
      invariant left <= fcs && Distinct(fcOrder') && Joined(k, fcs - left, fcOrder, fcDOs, fcOrder', fcDOs')
      decreases |left|
    {
      var fc :| fc in left;
      ghost var done := fcs - left;
      JoinOne(k, done, fc, fcOrder, fcDOs, fcOrder', fcDOs');
      left := left - {fc};
      assert fcs - left == done + {fc};
      if fc !in fcOrder' {
        fcOrder' := fcOrder' + [fc];
      }
      fcDOs' := fcDOs'[fc := Listed(fcDOs', fc) + [k]];
    }
    assert fcs - left == fcs;
    ObjectJoins(nodes, k, fcs, fcOrder, fcDOs, fcOrder', fcDOs');
  }

  /** What the map iteration has done once the constraints in `done` were visited. */
  ghost predicate Joined(k: nat, done: set<Text>, fcOrder: seq<Text>, fcDOs: map<Text, seq<nat>>,
                         fcOrder': seq<Text>, fcDOs': map<Text, seq<nat>>) {
    && (forall fc :: fc in fcOrder' <==> fc in fcOrder || fc in done)
    && (forall fc :: Listed(fcDOs', fc) == Listed(fcDOs, fc) + if fc in done then [k] else [])
  }

  lemma JoinedNone(k: nat, fcOrder: seq<Text>, fcDOs: map<Text, seq<nat>>)
    ensures Joined(k, {}, fcOrder, fcDOs, fcOrder, fcDOs)
  {
  }

  lemma OrderDistinct(nodes: seq<Node>, k: nat, fcOrder: seq<Text>, fcDOs: map<Text, seq<nat>>)
    requires Grouped(nodes, k, fcOrder, fcDOs)
    ensures Distinct(fcOrder)
  {
  }

  lemma JoinOne(k: nat, done: set<Text>, fc: Text, fcOrder: seq<Text>, fcDOs: map<Text, seq<nat>>,
                fcOrder': seq<Text>, fcDOs': map<Text, seq<nat>>)
    requires fc !in done && Joined(k, done, fcOrder, fcDOs, fcOrder', fcDOs')
    ensures Joined(k, done + {fc}, fcOrder, fcDOs, if fc in fcOrder' then fcOrder' else fcOrder' + [fc],
                   fcDOs'[fc := Listed(fcDOs', fc) + [k]])
  {
  }

  lemma ObjectJoins(nodes: seq<Node>, k: nat, fcs: set<Text>, fcOrder: seq<Text>, fcDOs: map<Text, seq<nat>>,
                    fcOrder': seq<Text>, fcDOs': map<Text, seq<nat>>)
    requires k < |nodes| && nodes[k].kind.DataObject?
    requires forall fc :: fc in fcs <==> HasFC(nodes[k], fc)
    requires Grouped(nodes, k, fcOrder, fcDOs) && Distinct(fcOrder') && Joined(k, fcs, fcOrder, fcDOs, fcOrder', fcDOs')
    ensures Grouped(nodes, k + 1, fcOrder', fcDOs')
  {
    hide HasFC;
    hide Listed;
    hide Occurs;
    hide ObjectsWith;
    forall fc ensures fc in fcOrder' <==> Occurs(nodes, fc, k + 1) {
      OccursNext(nodes, fc, k);
    }
    forall fc ensures Listed(fcDOs', fc) + ObjectsWith(nodes, fc, k + 1) == ObjectsWith(nodes, fc, 0) {
      ObjectsWithNext(nodes, fc, k);
      assert Listed(fcDOs, fc) + ObjectsWith(nodes, fc, k) == Listed(fcDOs', fc) + ObjectsWith(nodes, fc, k + 1);
    }
  }

  lemma OccursNext(nodes: seq<Node>, fc: Text, k: nat)
    requires k < |nodes|
    ensures Occurs(nodes, fc, k + 1) <==> Occurs(nodes, fc, k) || (nodes[k].kind.DataObject? && HasFC(nodes[k], fc))
  {
    hide HasFC;
  }

  lemma ObjectsWithNext(nodes: seq<Node>, fc: Text, k: nat)
    requires k < |nodes|
    ensures ObjectsWith(nodes, fc, k)
         == (if nodes[k].kind.DataObject? && HasFC(nodes[k], fc) then [k] else []) + ObjectsWith(nodes, fc, k + 1)
  {
    hide HasFC;
  }

  /** The first loop over a logical node: constraints in some order, each with its data objects in model order. */
  method CollectGroups(ln: Node) returns (fcOrder: seq<Text>, fcDOs: map<Text, seq<nat>>)
    ensures Distinct(fcOrder) && forall fc :: fc in fcOrder <==> fc in NodeFCs(ln.children, [])
    ensures forall fc :: Listed(fcDOs, fc) == ObjectsWith(ln.children, fc, 0)
  {
    hide HasFC;
    hide NodeFCs;
    hide Listed;
    fcOrder, fcDOs := [], map[];
    StartsEmpty(ln.children);
    for i := 0 to |ln.children|
      invariant Grouped(ln.children, i, fcOrder, fcDOs)
    {
      if ln.children[i].kind.DataObject? {
        var fcs := FCsOfObject(ln.children[i]);
        fcOrder, fcDOs := JoinGroups(ln.children, i, fcs, fcOrder, fcDOs);
      } else {
        OtherChildSkipped(ln.children, i, fcOrder, fcDOs);
      }
    }
    NodeFCsMembers(ln.children, []);
    forall fc ensures Listed(fcDOs, fc) == ObjectsWith(ln.children, fc, 0) {
      assert Listed(fcDOs, fc) + [] == Listed(fcDOs, fc);
    }
  }

  lemma StartsEmpty(nodes: seq<Node>)
    ensures Grouped(nodes, 0, [], map[])
  {
    forall fc ensures Listed(map[], fc) + ObjectsWith(nodes, fc, 0) == ObjectsWith(nodes, fc, 0) {
    }
  }

  lemma OtherChildSkipped(nodes: seq<Node>, k: nat, fcOrder: seq<Text>, fcDOs: map<Text, seq<nat>>)
    requires k < |nodes| && !nodes[k].kind.DataObject? && Grouped(nodes, k, fcOrder, fcDOs)
    ensures Grouped(nodes, k + 1, fcOrder, fcDOs)
  {
    hide HasFC;
    hide Listed;
    forall fc ensures Occurs(nodes, fc, k + 1) <==> Occurs(nodes, fc, k) {
    }
    forall fc ensures ObjectsWith(nodes, fc, k) == ObjectsWith(nodes, fc, k + 1) {
    }
  }

  // ---- Output ----

  lemma AttributeNames(parts: seq<Text>, at: Position, n: Node)
    requires parts != []
    ensures Names(Attribute(parts, at, n))
         == [Join(parts, DOLLAR) + [DOLLAR] + n.name] + Names(Attributes(parts + [n.name], at, n.children, None, 0))
  {
    hide Join;
    hide Attributes;
    JoinSnoc(parts, DOLLAR, n.name);
    NamesConcat([Entry(parts + [n.name], at)], Attributes(parts + [n.name], at, n.children, None, 0));
  }

  lemma AttributesNext(parts: seq<Text>, at: Position, nodes: seq<Node>, fc: Option<Text>, k: nat)
    requires k < |nodes|
    ensures Names(Attributes(parts, at, nodes, fc, k))
         == (if nodes[k].kind.DataAttribute? && (fc.None? || nodes[k].kind.fc == fc.value)
             then Names(Attribute(parts, at + [k], nodes[k])) else [])
            + Names(Attributes(parts, at, nodes, fc, k + 1))
  {
    hide Attribute;
    NamesConcat(Attribute(parts, at + [k], nodes[k]), Attributes(parts, at, nodes, fc, k + 1));
  }

  lemma AttributesEnd(parts: seq<Text>, at: Position, nodes: seq<Node>, fc: Option<Text>)
    ensures Names(Attributes(parts, at, nodes, fc, |nodes|)) == []
  {
  }

  /** collectDANames appends the attribute and everything below it. */
  method CollectDANames(prefix: Text, da: Node, out: seq<Text>, ghost parts: seq<Text>, ghost at: Position)
    returns (out': seq<Text>)
    requires parts != [] && Join(parts, DOLLAR) == prefix
    ensures out' == out + Names(Attribute(parts, at, da))
    decreases da
  {
    hide Join;
    hide Names;
    hide Attribute;
    hide Attributes;
    var daPath := prefix + [DOLLAR] + da.name;
    JoinSnoc(parts, DOLLAR, da.name);
    AttributeNames(parts, at, da);
    out' := out + [daPath];
    ghost var parts' := parts + [da.name];
    for i := 0 to |da.children|
      invariant out' + Names(Attributes(parts', at, da.children, None, i)) == out + Names(Attribute(parts, at, da))
    {
      AttributesNext(parts', at, da.children, None, i);
      if da.children[i].kind.DataAttribute? {
        out' := CollectDANames(daPath, da.children[i], out', parts', at + [i]);
      }
    }
    AttributesEnd(parts', at, da.children, None);
  }

  /** One data object within one constraint. */
  method ListObject(prefix: Text, fc: Text, n: Node, out: seq<Text>, ghost parts: seq<Text>, ghost at: Position)
    returns (out': seq<Text>)
    requires parts != [] && Join(parts, DOLLAR) == prefix
    ensures out' == out + [prefix] + Names(Attributes(parts, at, n.children, Some(fc), 0))
  {
    hide Join;
    hide Names;
    hide Attribute;
    hide Attributes;
    out' := out + [prefix];
    for i := 0 to |n.children|
      invariant out' + Names(Attributes(parts, at, n.children, Some(fc), i))
             == out + [prefix] + Names(Attributes(parts, at, n.children, Some(fc), 0))
    {
      AttributesNext(parts, at, n.children, Some(fc), i);
      var k := n.children[i].kind;
      if k.DataAttribute? && k.fc == fc {
        out' := CollectDANames(prefix, n.children[i], out', parts, at + [i]);
      }
    }
    AttributesEnd(parts, at, n.children, Some(fc));
  }

  lemma GroupNames(at: Position, ln: Node, fc: Text, which: seq<nat>)
    requires which == ObjectsWith(ln.children, fc, 0)
    ensures Names(Group(at, ln, fc)) == [ln.name + [DOLLAR] + fc] + Names(Objects([ln.name, fc], at, ln.children, fc, which))
    ensures Join([ln.name, fc], DOLLAR) == ln.name + [DOLLAR] + fc
    ensures Names(Objects([ln.name, fc], at, ln.children, fc, [])) == []
  {
    hide ObjectsWith;
    var parts := [ln.name, fc];
    assert parts[1..] == [fc] && Join([fc], DOLLAR) == fc;
    NamesConcat([Entry(parts, at)], Objects(parts, at, ln.children, fc, which));
  }

  method ListGroup(ln: Node, fc: Text, which: seq<nat>, out: seq<Text>, ghost at: Position) returns (out': seq<Text>)
    requires which == ObjectsWith(ln.children, fc, 0)
    ensures out' == out + Names(Group(at, ln, fc))
  {
    hide Attributes;
    hide ObjectsWith;
    hide Objects;
    hide Group;
    hide Names;
    hide Join;
    var groupName := ln.name + [DOLLAR] + fc;
    ghost var parts := [ln.name, fc];
    GroupNames(at, ln, fc, which);
    out' := out + [groupName];
    assert which[0..] == which;
    for i := 0 to |which|
      invariant out' + Names(Objects(parts, at, ln.children, fc, which[i..])) == out + Names(Group(at, ln, fc))
    {
      var n := ln.children[which[i]];
      var doPrefix := groupName + [DOLLAR] + n.name;
      JoinSnoc(parts, DOLLAR, n.name);
      ObjectNames(parts, at, ln.children, fc, which[i..]);
      assert which[i..][1..] == which[i + 1..];
      out' := ListObject(doPrefix, fc, n, out', parts + [n.name], at + [which[i]]);
    }
    assert which[|which|..] == [];
  }

  lemma ObjectNames(parts: seq<Text>, at: Position, nodes: seq<Node>, fc: Text, which: seq<nat>)
    requires which != [] && Indices(which, nodes)
    ensures Names(Objects(parts, at, nodes, fc, which))
         == [Join(parts + [nodes[which[0]].name], DOLLAR)]
            + Names(Attributes(parts + [nodes[which[0]].name], at + [which[0]], nodes[which[0]].children, Some(fc), 0))
            + Names(Objects(parts, at, nodes, fc, which[1..]))
  {
    hide Attributes;
    hide Join;
    var n := nodes[which[0]];
    var head := [Entry(parts + [n.name], at + [which[0]])];
    var below := Attributes(parts + [n.name], at + [which[0]], n.children, Some(fc), 0);
    var rest := Objects(parts, at, nodes, fc, which[1..]);
    NamesConcat(head, below);
    NamesConcat(head + below, rest);
  }

  /** The second and third loops over a logical node: the groups in sorted order. */
  method ListGroups(ln: Node, out: seq<Text>, ghost at: Position) returns (out': seq<Text>)
    ensures out' == out + Names(Groups(at, ln, Sort(NodeFCs(ln.children, []))))
  {
    hide Group;
    hide NodeFCs;
    hide ObjectsWith;
    hide Sort;
    hide Listed;
    var fcOrder, fcDOs := CollectGroups(ln);
    NodeFCsMembers(ln.children, []);
    SortIgnoresOrder(fcOrder, NodeFCs(ln.children, []));
    var sorted := Sort(fcOrder);
    out' := out;
    assert sorted[0..] == sorted;
    for i := 0 to |sorted|
      invariant out' + Names(Groups(at, ln, sorted[i..])) == out + Names(Groups(at, ln, sorted))
    {
      var fc := sorted[i];
      assert sorted[i..][1..] == sorted[i + 1..];
      NamesConcat(Group(at, ln, fc), Groups(at, ln, sorted[i + 1..]));
      out' := ListGroup(ln, fc, Listed(fcDOs, fc), out', at);
    }
    assert out' + [] == out';
  }

  method ListNode(ln: Node, ldInst: Text, rcbs: seq<RCB>, out: seq<Text>, ghost at: Position) returns (out': seq<Text>)
    ensures out' == out + Names(NodeEntries(at, ln, ldInst, rcbs))
  {
    hide Groups;
    hide NodeFCs;
    hide Sort;
    hide Controls;
    ghost var groups := Groups(at, ln, Sort(NodeFCs(ln.children, [])));
    NamesConcat(groups, if AnyControl(rcbs, ldInst, ln.name) then [Entry([ln.name, BR], at)] else []);
    assert [ln.name, BR][1..] == [BR] && Join([BR], DOLLAR) == BR;
    out' := ListGroups(ln, out, at);
    var i := 0;
    while i < |rcbs|
      invariant 0 <= i <= |rcbs| && out' == out + Names(groups)
      invariant forall j :: 0 <= j < i ==> !Controls(rcbs[j], ldInst, ln.name)
    {
      if Controls(rcbs[i], ldInst, ln.name) {
        out' := out' + [ln.name + [DOLLAR] + BR];
        break;
      }
      i := i + 1;
    }
  }

  lemma DeviceNext(at: Position, nodes: seq<Node>, ldInst: Text, rcbs: seq<RCB>, k: nat)
    requires k < |nodes|
    ensures Names(DeviceEntries(at, nodes, ldInst, rcbs, k))
         == (if nodes[k].kind.LogicalNode? then Names(NodeEntries(at + [k], nodes[k], ldInst, rcbs)) else [])
            + Names(DeviceEntries(at, nodes, ldInst, rcbs, k + 1))
  {
    hide NodeEntries;
    NamesConcat(NodeEntries(at + [k], nodes[k], ldInst, rcbs), DeviceEntries(at, nodes, ldInst, rcbs, k + 1));
  }

  method NamedVariablesForDomain(site: Site, domain: Text) returns (names: seq<Text>)
    ensures names == NamedVariables(site, domain)
  {
    hide NodeEntries;
    hide DeviceEntries;
    hide Names;
    hide Sort;
    var found := FindLD(site, domain, 0);
    if found.None? {
      return [];
    }
    var d := found.value;
    var ld := site.devices[d];
    names := [];
    for k := 0 to |ld.children|
      invariant names + Names(DeviceEntries([d], ld.children, ld.name, site.rcbs, k))
             == Names(DeviceEntries([d], ld.children, ld.name, site.rcbs, 0))
    {
      DeviceNext([d], ld.children, ld.name, site.rcbs, k);
      if ld.children[k].kind.LogicalNode? {
        names := ListNode(ld.children[k], ld.name, site.rcbs, names, [d] + [k]);
      }
    }
    NoneLeft([d], ld.children, ld.name, site.rcbs);
    assert names + [] == names;
    return Sort(names);
  }

  lemma NoneLeft(at: Position, nodes: seq<Node>, ldInst: Text, rcbs: seq<RCB>)
    ensures Names(DeviceEntries(at, nodes, ldInst, rcbs, |nodes|)) == []
  {
  }
}
