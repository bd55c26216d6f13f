/** Which names a logical node lists: those of its constraints, objects and attributes, and no others. */
module ListedNames {
  import opened Bytes
  import opened Texts
  import opened Model
  import opened FindNode
  import opened NameList
  import opened NameListing

  /** The object at index `p[0]` and what `p` leads to below it show under this constraint. */
  predicate Shows(nodes: seq<Node>, p: Position, fc: Text)
    requires p != [] && Leads(nodes, DO, p)
  {
    var o := nodes[p[0]];
    if |p| == 1 then exists i :: 0 <= i < |o.children| && o.children[i].kind.DataAttribute? && o.children[i].kind.fc == fc
    else
      assert Leads(o.children, DA, p[1..]);
      o.children[p[1..][0]].kind.fc == fc
  }

  /** Some attribute of an object has this constraint. */
  predicate Uses(nodes: seq<Node>, fc: Text) {
    exists i, j ::
      && 0 <= i < |nodes| && nodes[i].kind.DataObject?
      && 0 <= j < |nodes[i].children| && nodes[i].children[j].kind.DataAttribute? && nodes[i].children[j].kind.fc == fc
  }

  // ---- Attributes ----

  /** The entry of the attribute to which `p` leads from `nodes`, whose first step has an index from `k` on. */
  predicate AttributeEntry(e: Entry, prefix: seq<Text>, at: Position, nodes: seq<Node>, fc: Option<Text>, k: nat, p: Position) {
    && p != [] && Leads(nodes, DA, p) && k <= p[0] && (fc.None? || nodes[p[0]].kind.fc == fc.value)
    && e == Entry(prefix + NamesAlong(nodes, DA, p), at + p)
  }

  lemma {:induction false} AttributesListed(
      prefix: seq<Text>, at: Position, nodes: seq<Node>, fc: Option<Text>, k: nat, p: Position)
    requires p != [] && Leads(nodes, DA, p) && k <= p[0] && (fc.None? || nodes[p[0]].kind.fc == fc.value)
    ensures Entry(prefix + NamesAlong(nodes, DA, p), at + p) in Attributes(prefix, at, nodes, fc, k)
    decreases nodes, |nodes| - k
  {
    if k == p[0] {
      var n := nodes[k];
      var own := prefix + [n.name];
      if |p| == 1 {
        assert p == [k] && NamesAlong(nodes, DA, p) == [n.name] + NamesAlong(n.children, DA, []);
        assert NamesAlong(nodes, DA, p) == [n.name];
        assert Entry(own, at + [k]) in Attribute(prefix, at + [k], n);
      } else {
        AttributesListed(own, at + [k], n.children, None, 0, p[1..]);
        assert at + [k] + p[1..] == at + p;
        assert own + NamesAlong(n.children, DA, p[1..]) == prefix + NamesAlong(nodes, DA, p);
        assert Entry(prefix + NamesAlong(nodes, DA, p), at + p) in Attribute(prefix, at + [k], n);
      }
    } else {
      AttributesListed(prefix, at, nodes, fc, k + 1, p);
    }
  }

  lemma {:induction false} AttributesOnly(
      prefix: seq<Text>, at: Position, nodes: seq<Node>, fc: Option<Text>, k: nat, e: Entry)
    returns (p: Position)
    requires e in Attributes(prefix, at, nodes, fc, k)
    ensures AttributeEntry(e, prefix, at, nodes, fc, k, p)
    decreases nodes, |nodes| - k
  {
    var n := nodes[k];
    if e in Attributes(prefix, at, nodes, fc, k + 1) {
      p := AttributesOnly(prefix, at, nodes, fc, k + 1, e);
    } else {
      var own := prefix + [n.name];
      assert e in Attribute(prefix, at + [k], n);
      if e == Entry(own, at + [k]) {
        p := [k];
        assert p[1..] == [] && NamesAlong(nodes, DA, p) == [n.name] + NamesAlong(n.children, DA, []);
        assert NamesAlong(nodes, DA, p) == [n.name];
      } else {
        var q := AttributesOnly(own, at + [k], n.children, None, 0, e);
        p := [k] + q;
        assert p[1..] == q && at + [k] + q == at + p;
        assert own + NamesAlong(n.children, DA, q) == prefix + NamesAlong(nodes, DA, p);
      }
    }
  }

  // ---- Objects ----

  /** The entry of the object or attribute to which `p` leads, in one constraint's group. */
  predicate ObjectEntry(e: Entry, prefix: seq<Text>, at: Position, nodes: seq<Node>, fc: Text, p: Position) {
    p != [] && Leads(nodes, DO, p) && Shows(nodes, p, fc) && e == Entry(prefix + NamesAlong(nodes, DO, p), at + p)
  }

  lemma {:induction false} ObjectsWithHas(nodes: seq<Node>, fc: Text, k: nat, i: nat)
    ensures i in ObjectsWith(nodes, fc, k) <==> k <= i < |nodes| && nodes[i].kind.DataObject? && HasFC(nodes[i], fc)
    decreases |nodes| - k
  {
    hide HasFC;
    if k < |nodes| {
      ObjectsWithHas(nodes, fc, k + 1, i);
    }
  }

  lemma ShownIsWith(nodes: seq<Node>, p: Position, fc: Text)
    requires p != [] && Leads(nodes, DO, p) && Shows(nodes, p, fc)
    ensures p[0] in ObjectsWith(nodes, fc, 0)
  {
    ObjectsWithHas(nodes, fc, 0, p[0]);
    var o := nodes[p[0]];
    if |p| == 1 {
      var i :| 0 <= i < |o.children| && o.children[i].kind.DataAttribute? && o.children[i].kind.fc == fc;
      assert OfFC(o.children[i], fc);
    } else {
      assert OfFC(o.children[p[1..][0]], fc);
    }
  }

  lemma {:induction false} ObjectsListed(
      prefix: seq<Text>, at: Position, nodes: seq<Node>, fc: Text, which: seq<nat>, p: Position)
    requires Indices(which, nodes) && p != [] && Leads(nodes, DO, p) && Shows(nodes, p, fc) && p[0] in which
    ensures Entry(prefix + NamesAlong(nodes, DO, p), at + p) in Objects(prefix, at, nodes, fc, which)
    decreases |which|
  {
    hide Attributes;
    var i, o := which[0], nodes[p[0]];
    if p[0] == i {
      var own := prefix + [o.name];
      if |p| == 1 {
        assert p[1..] == [] && p == [i] && NamesAlong(nodes, DO, p) == [o.name] + NamesAlong(o.children, DA, []);
        assert NamesAlong(nodes, DO, p) == [o.name];
      } else {
        AttributesListed(own, at + [i], o.children, Some(fc), 0, p[1..]);
        assert at + [i] + p[1..] == at + p;
        assert own + NamesAlong(o.children, DA, p[1..]) == prefix + NamesAlong(nodes, DO, p);
      }
    } else {
      ObjectsListed(prefix, at, nodes, fc, which[1..], p);
    }
  }

  lemma ObjectAlone(prefix: seq<Text>, at: Position, nodes: seq<Node>, fc: Text, i: nat)
    requires i < |nodes| && nodes[i].kind.DataObject? && HasFC(nodes[i], fc)
    ensures ObjectEntry(Entry(prefix + [nodes[i].name], at + [i]), prefix, at, nodes, fc, [i])
  {
    var p := [i];
    var o := nodes[i];
    assert p[1..] == [] && NamesAlong(nodes, DO, p) == [o.name] + NamesAlong(o.children, DA, []);
    assert NamesAlong(nodes, DO, p) == [o.name];
    var j :| 0 <= j < |o.children| && OfFC(o.children[j], fc);
    assert o.children[j].kind.DataAttribute? && o.children[j].kind.fc == fc;
  }

  lemma ObjectBelow(prefix: seq<Text>, at: Position, nodes: seq<Node>, fc: Text, i: nat, e: Entry, q: Position)
    requires i < |nodes| && nodes[i].kind.DataObject?
    requires AttributeEntry(e, prefix + [nodes[i].name], at + [i], nodes[i].children, Some(fc), 0, q)
    ensures ObjectEntry(e, prefix, at, nodes, fc, [i] + q)
  {
    var p, o := [i] + q, nodes[i];
    assert p[1..] == q && at + [i] + q == at + p;
    assert prefix + [o.name] + NamesAlong(o.children, DA, q) == prefix + NamesAlong(nodes, DO, p);
  }

  lemma {:induction false} ObjectsOnly(
      prefix: seq<Text>, at: Position, nodes: seq<Node>, fc: Text, which: seq<nat>, e: Entry)
    returns (p: Position)
    requires Indices(which, nodes) && e in Objects(prefix, at, nodes, fc, which)
    requires forall j :: 0 <= j < |which| ==> nodes[which[j]].kind.DataObject? && HasFC(nodes[which[j]], fc)
    ensures ObjectEntry(e, prefix, at, nodes, fc, p)
    decreases |which|
  {
    hide Attributes;
    hide HasFC;
    hide ObjectEntry;
    hide AttributeEntry;
    var i := which[0];
    var own := prefix + [nodes[i].name];
    if e in Objects(prefix, at, nodes, fc, which[1..]) {
      p := ObjectsOnly(prefix, at, nodes, fc, which[1..], e);
    } else if e == Entry(own, at + [i]) {
      ObjectAlone(prefix, at, nodes, fc, i);
      p := [i];
    } else {
      var q := AttributesOnly(own, at + [i], nodes[i].children, Some(fc), 0, e);
      ObjectBelow(prefix, at, nodes, fc, i, e, q);
      p := [i] + q;
    }
  }

  // ---- Constraints ----

  lemma UsesExactly(nodes: seq<Node>, fc: FCName)
    ensures fc in NodeFCs(nodes, []) <==> Uses(nodes, fc)
  {
    hide NodeFCs;
    NodeFCsMembers(nodes, []);
    if Uses(nodes, fc) {
      var i, j :|
        && 0 <= i < |nodes| && nodes[i].kind.DataObject?
        && 0 <= j < |nodes[i].children| && nodes[i].children[j].kind.DataAttribute? && nodes[i].children[j].kind.fc == fc;
      assert OfFC(nodes[i].children[j], fc);
    }
  }

  // ---- The node ----

  lemma {:induction false} GroupsHave(at: Position, ln: Node, fcs: seq<Text>, e: Entry)
    ensures e in Groups(at, ln, fcs) <==> exists fc :: fc in fcs && e in Group(at, ln, fc)
  {
    hide Group;
    if fcs != [] {
      GroupsHave(at, ln, fcs[1..], e);
    }
  }

  lemma GroupHas(at: Position, ln: Node, fc: Text, e: Entry)
    ensures e in Group(at, ln, fc)
       <==> e == Entry([ln.name, fc], at) || exists p :: ObjectEntry(e, [ln.name, fc], at, ln.children, fc, p)
  {
    hide Objects;
    hide ObjectsWith;
    hide Shows;
    var which := ObjectsWith(ln.children, fc, 0);
    if e in Objects([ln.name, fc], at, ln.children, fc, which) {
      var p := ObjectsOnly([ln.name, fc], at, ln.children, fc, which, e);
    }
    if p :| ObjectEntry(e, [ln.name, fc], at, ln.children, fc, p) {
      ShownIsWith(ln.children, p, fc);
      ObjectsListed([ln.name, fc], at, ln.children, fc, which, p);
    }
  }

  /**
   * A logical node lists, under each constraint that occurs in it: the constraint's group, the objects with an attribute
   * of it, and these attributes with everything below them, each under the names on its path; and the group of control
   * blocks, if it has any. It lists nothing else.
   */
  lemma NodeListsExactly(at: Position, ln: Node, ldInst: Text, rcbs: seq<RCB>, e: Entry)
    ensures e in NodeEntries(at, ln, ldInst, rcbs)
       <==> || (exists fc: FCName :: Uses(ln.children, fc) && e == Entry([ln.name, fc], at))
            || (exists fc: FCName, p :: Uses(ln.children, fc) && ObjectEntry(e, [ln.name, fc], at, ln.children, fc, p))
            || (e == Entry([ln.name, BR], at)
                && exists i :: 0 <= i < |rcbs| && rcbs[i].buffered && rcbs[i].ldInst == ldInst && rcbs[i].lnName == ln.name)
  {
    hide Uses;
    hide ObjectEntry;
    hide Groups;
    hide Group;
    hide NodeFCs;
    hide Sort;
    var fcs := NodeFCs(ln.children, []);
    GroupsHave(at, ln, Sort(fcs), e);
    forall fc: FCName ensures fc in Sort(fcs) <==> Uses(ln.children, fc) {
      UsesExactly(ln.children, fc);
      SortKeeps(fcs, fc);
    }
    forall fc: FCName ensures e in Group(at, ln, fc)
                         <==> e == Entry([ln.name, fc], at) || exists p :: ObjectEntry(e, [ln.name, fc], at, ln.children, fc, p) {
      GroupHas(at, ln, fc, e);
    }
    assert AnyControl(rcbs, ldInst, ln.name)
      <==> exists i :: 0 <= i < |rcbs| && rcbs[i].buffered && rcbs[i].ldInst == ldInst && rcbs[i].lnName == ln.name by {
      ControlsAre(rcbs, ldInst, ln.name);
    }
    forall fc: Text | fc in Sort(fcs) ensures fc in fcs {
      SortKeeps(fcs, fc);
    }
  }

  lemma SortKeeps(xs: seq<Text>, x: Text)
    ensures x in Sort(xs) <==> x in xs
  {
    hide Sort;
    SortSorts(xs);
    assert x in Sort(xs) <==> multiset(Sort(xs))[x] > 0;
    assert x in xs <==> multiset(xs)[x] > 0;
  }

  lemma ControlsAre(rcbs: seq<RCB>, ldInst: Text, lnName: Text)
    ensures AnyControl(rcbs, ldInst, lnName)
       <==> exists i :: 0 <= i < |rcbs| && rcbs[i].buffered && rcbs[i].ldInst == ldInst && rcbs[i].lnName == lnName
  {
    if i :| 0 <= i < |rcbs| && rcbs[i].buffered && rcbs[i].ldInst == ldInst && rcbs[i].lnName == lnName {
      assert Controls(rcbs[i], ldInst, lnName);
    }
  }

  /** A device lists what its logical nodes list. */
  lemma {:induction false} DeviceListsExactly(at: Position, nodes: seq<Node>, ldInst: Text, rcbs: seq<RCB>, k: nat, e: Entry)
    ensures e in DeviceEntries(at, nodes, ldInst, rcbs, k)
       <==> exists n :: k <= n < |nodes| && nodes[n].kind.LogicalNode? && e in NodeEntries(at + [n], nodes[n], ldInst, rcbs)
    decreases |nodes| - k
  {
    hide NodeEntries;
    if k < |nodes| {
      DeviceListsExactly(at, nodes, ldInst, rcbs, k + 1, e);
    }
  }
}
