/** What a client finds that goes down the type of a logical node by names and down its value by the same steps. */
module WalksNamed {
  import opened Bytes
  import opened Texts
  import opened Model
  import opened FindNode
  import opened NameList
  import opened NameListing
  import opened NameResolution
  import opened ListedNames
  import opened Walks
  import opened WalksAgree

  /** The first component of this name, and the member in its place. */
  function Pair(cs: seq<Component>, vs: seq<Data>, name: Text): Option<(TypeSpec, Data)> {
    if cs == [] || vs == [] then None
    else if cs[0].name == name then Some((cs[0].spec, vs[0]))
    else Pair(cs[1..], vs[1..], name)
  }

  function Select(t: TypeSpec, v: Data, path: seq<Text>): Option<Data>
    decreases |path|
  {
    if path == [] then Some(v)
    else if !t.StructureType? || !v.StructureOf? then None
    else
      match Pair(t.components, v.members, path[0])
      case None => None
      case Some((spec, member)) => Select(spec, member, path[1..])
  }

  lemma PairCons(c: Component, v: Data, cs: seq<Component>, vs: seq<Data>, name: Text)
    ensures Pair([c] + cs, [v] + vs, name) == if c.name == name then Some((c.spec, v)) else Pair(cs, vs, name)
  {
  }

  // ---- Attributes ----

  lemma TailNames(nodes: seq<Node>)
    requires nodes != [] && DistinctNames(nodes)
    ensures DistinctNames(nodes[1..]) && forall i :: 0 < i < |nodes| ==> nodes[i].name != nodes[0].name
  {
  }

  lemma {:induction false} AttributePair(nodes: seq<Node>, i: nat)
    requires i < |nodes| && nodes[i].kind.DataAttribute? && DistinctNames(nodes)
    ensures Pair(AttributeSpecs(nodes), AttributesData(nodes), nodes[i].name) == Some((AttributeSpec(nodes[i]), AttributeData(nodes[i])))
    decreases nodes
  {
    hide AttributeSpec;
    hide AttributeData;
    hide DistinctNames;
    TailNames(nodes);
    var n, rest := nodes[0], nodes[1..];
    if n.kind.DataAttribute? {
      PairCons(Component(n.name, AttributeSpec(n)), AttributeData(n), AttributeSpecs(rest), AttributesData(rest), nodes[i].name);
    } else {
      assert AttributeSpecs(nodes) == AttributeSpecs(rest) && AttributesData(nodes) == AttributesData(rest);
    }
    if i > 0 {
      assert rest[i - 1] == nodes[i];
      AttributePair(rest, i - 1);
    }
  }

  /** The same among the attributes of one constraint. */
  lemma {:induction false} ConstraintPair(nodes: seq<Node>, fc: Text, i: nat)
    requires i < |nodes| && nodes[i].kind.DataAttribute? && nodes[i].kind.fc == fc && DistinctNames(nodes)
    ensures Pair(AttributeSpecs(OfConstraint(nodes, fc)), AttributesData(OfConstraint(nodes, fc)), nodes[i].name)
         == Some((AttributeSpec(nodes[i]), AttributeData(nodes[i])))
    decreases |nodes|
  {
    hide AttributeSpec;
    hide AttributeData;
    hide DistinctNames;
    TailNames(nodes);
    var n, rest := nodes[0], OfConstraint(nodes[1..], fc);
    if OfFC(n, fc) {
      assert OfConstraint(nodes, fc) == [n] + rest && ([n] + rest)[1..] == rest;
      PairCons(Component(n.name, AttributeSpec(n)), AttributeData(n), AttributeSpecs(rest), AttributesData(rest), nodes[i].name);
    } else {
      assert OfConstraint(nodes, fc) == rest;
    }
    if i > 0 {
      assert nodes[1..][i - 1] == nodes[i];
      ConstraintPair(nodes[1..], fc, i - 1);
    }
  }

  /** The node to which a position leads. */
  function Reached(nodes: seq<Node>, tier: Tier, p: Position): Node
    requires p != [] && Leads(nodes, tier, p)
    decreases |p|
  {
    if |p| == 1 then nodes[p[0]] else Reached(nodes[p[0]].children, tier.Below(), p[1..])
  }

  lemma FirstStep(nodes: seq<Node>, tier: Tier, p: Position)
    requires p != [] && Leads(nodes, tier, p)
    ensures p[0] < |nodes| && IsTier(nodes[p[0]], tier) && Leads(nodes[p[0]].children, tier.Below(), p[1..])
    ensures NamesAlong(nodes, tier, p) == [nodes[p[0]].name] + NamesAlong(nodes[p[0]].children, tier.Below(), p[1..])
    ensures NamesAlong(nodes, tier, p)[1..] == NamesAlong(nodes[p[0]].children, tier.Below(), p[1..])
    ensures |p| > 1 ==> Reached(nodes, tier, p) == Reached(nodes[p[0]].children, tier.Below(), p[1..])
  {
  }

  lemma {:induction false} RegularBelow(nodes: seq<Node>, i: nat)
    requires RegularAll(nodes) && i < |nodes| && nodes[i].kind.DataAttribute?
    ensures Regular(nodes[i])
    decreases nodes
  {
    hide Regular;
    if i > 0 {
      assert nodes[1..][i - 1] == nodes[i];
      RegularBelow(nodes[1..], i - 1);
    }
  }

  lemma OneMore(t: TypeSpec, v: Data, path: seq<Text>)
    requires path != [] && t.StructureType? && v.StructureOf? && Pair(t.components, v.members, path[0]).Some?
    ensures Select(t, v, path)
         == Select(Pair(t.components, v.members, path[0]).value.0, Pair(t.components, v.members, path[0]).value.1, path[1..])
  {
  }

  lemma Unfolded(da: Node)
    requires da.kind.DataAttribute? && |da.children| > 0 && Regular(da)
    ensures AttributeSpec(da) == StructureType(AttributeSpecs(da.children))
    ensures AttributeData(da) == StructureOf(AttributesData(da.children))
  {
  }

  lemma {:induction false} AttributeSelected(da: Node, p: Position)
    requires da.kind.DataAttribute? && Regular(da) && DistinctSiblings(da.children) && p != [] && Leads(da.children, DA, p)
    ensures Select(AttributeSpec(da), AttributeData(da), NamesAlong(da.children, DA, p))
         == Some(AttributeData(Reached(da.children, DA, p)))
    decreases |p|
  {
    hide AttributeSpec;
    hide AttributeData;
    hide AttributeSpecs;
    hide AttributesData;
    hide Regular;
    hide Pair;
    hide NamesAlong;
    FirstStep(da.children, DA, p);
    var child := da.children[p[0]];
    Unfolded(da);
    AttributePair(da.children, p[0]);
    var path := NamesAlong(da.children, DA, p);
    OneMore(AttributeSpec(da), AttributeData(da), path);
    if |p| == 1 {
      NoNames(child.children);
    } else {
      ChildRegular(da, p[0]);
      assert DistinctChildren(child);
      AttributeSelected(child, p[1..]);
    }
  }

  lemma NoNames(nodes: seq<Node>)
    ensures NamesAlong(nodes, DA, []) == []
  {
  }

  lemma ChildRegular(da: Node, i: nat)
    requires Regular(da) && i < |da.children| && da.children[i].kind.DataAttribute?
    ensures Regular(da.children[i])
  {
    RegularBelow(da.children, i);
  }

  // ---- Objects of one constraint ----

  lemma {:induction false} ObjectPair(rows: seq<Row>, nodes: seq<Node>, fc: Text, which: seq<nat>, j: nat)
    requires Indices(which, nodes) && Filed(rows, nodes, fc, which) && j < |which|
    requires forall a, b :: 0 <= a < b < |which| ==> nodes[which[a]].name != nodes[which[b]].name
    ensures var das := OfConstraint(nodes[which[j]].children, fc);
            Pair(ObjectSpecs(rows, fc, NamesOf(nodes, which)), ObjectsData(nodes, fc, which), nodes[which[j]].name)
            == Some((StructureType(AttributeSpecs(das)), StructureOf(AttributesData(das))))
    decreases |which|
  {
    hide RowDAs;
    hide OfConstraint;
    hide AttributeSpecs;
    hide AttributesData;
    var i, rest := which[0], which[1..];
    var das := OfConstraint(nodes[i].children, fc);
    assert RowDAs(rows, nodes[i].name, fc) == das;
    var c, v := Component(nodes[i].name, StructureType(AttributeSpecs(das))), StructureOf(AttributesData(das));
    assert NamesOf(nodes, which)[1..] == NamesOf(nodes, rest);
    PairCons(c, v, ObjectSpecs(rows, fc, NamesOf(nodes, rest)), ObjectsData(nodes, fc, rest), nodes[which[j]].name);
    if j > 0 {
      assert rest[j - 1] == which[j];
      ObjectPair(rows, nodes, fc, rest, j - 1);
    }
  }

  lemma NamesApart(nodes: seq<Node>, which: seq<nat>)
    requires Indices(which, nodes) && Distinct(which) && DistinctNames(nodes)
    ensures Distinct(NamesOf(nodes, which))
    ensures forall a, b :: 0 <= a < b < |which| ==> nodes[which[a]].name != nodes[which[b]].name
  {
    forall a, b | 0 <= a < b < |which| ensures nodes[which[a]].name != nodes[which[b]].name {
      assert which[a] != which[b];
    }
  }

  lemma SameMultisetDistinct(a: seq<nat>, b: seq<nat>)
    requires multiset(a) == multiset(b) && Distinct(a)
    ensures Distinct(b)
  {
    forall i, j | 0 <= i < j < |b| ensures b[i] != b[j] {
      if b[i] == b[j] {
        TwiceInMultiset(b, i, j);
        OnceInMultiset(a, b[i]);
      }
    }
  }

  lemma TwiceInMultiset(b: seq<nat>, i: nat, j: nat)
    requires i < j < |b| && b[i] == b[j]
    ensures multiset(b)[b[i]] >= 2
  {
    assert b == b[..j] + [b[j]] + b[j + 1..];
    assert b[i] in b[..j];
  }

  lemma {:induction false} OnceInMultiset(a: seq<nat>, x: nat)
    requires Distinct(a)
    ensures multiset(a)[x] <= 1
    decreases |a|
  {
    if a != [] {
      var init := a[..|a| - 1];
      assert a == init + [a[|a| - 1]];
      OnceInMultiset(init, x);
      if a[|a| - 1] == x {
        assert x !in init;
      }
    }
  }

  lemma GroupObject(nodes: seq<Node>, fc: Text, i: nat)
    requires DistinctNames(nodes) && i < |nodes| && nodes[i].kind.DataObject? && HasFC(nodes[i], fc)
    ensures var das := OfConstraint(nodes[i].children, fc);
            && GroupSpec(Rows(nodes, 0), fc).spec.StructureType? && GroupData(nodes, fc).StructureOf?
            && Pair(GroupSpec(Rows(nodes, 0), fc).spec.components, GroupData(nodes, fc).members, nodes[i].name)
               == Some((StructureType(AttributeSpecs(das)), StructureOf(AttributesData(das))))
  {
    hide ObjectSpecs;
    hide ObjectsData;
    hide Rows;
    hide RowNames;
    hide ObjectsWith;
    hide SortObjects;
    hide Sort;
    hide Dedupe;
    hide Filed;
    hide HasFC;
    hide Pair;
    hide AttributeSpecs;
    hide AttributesData;
    hide OfConstraint;
    hide DistinctNames;
    var rows, which := Rows(nodes, 0), ObjectsWith(nodes, fc, 0);
    var sorted := SortObjects(nodes, which);
    ObjectsWithDistinct(nodes, fc, 0);
    NamesApart(nodes, which);
    RowNamesAreObjectNames(nodes, fc, 0, []);
    var names := NamesOf(nodes, which);
    assert [] + names == names;
    NothingTwice();
    DedupeDistinct(names, []);
    SortObjectsNames(nodes, which);
    ObjectsFiled(nodes, fc);
    ReorderedObjects(rows, nodes, fc, which, sorted);
    SameMultisetDistinct(which, sorted);
    NamesApart(nodes, sorted);
    ObjectsWithHas(nodes, fc, 0, i);
    SameMembers(which, sorted, i);
    var j :| 0 <= j < |sorted| && sorted[j] == i;
    ObjectPair(rows, nodes, fc, sorted, j);
  }

  // ---- Groups ----

  lemma {:induction false} GroupPair(nodes: seq<Node>, fcs: seq<Text>, j: nat)
    requires Distinct(fcs) && j < |fcs|
    ensures Pair(GroupSpecs(Rows(nodes, 0), fcs), GroupsData(nodes, fcs), fcs[j])
         == Some((GroupSpec(Rows(nodes, 0), fcs[j]).spec, GroupData(nodes, fcs[j])))
    decreases |fcs|
  {
    hide GroupData;
    hide Rows;
    var rows := Rows(nodes, 0);
    NamedByConstraint(rows, fcs[0]);
    hide GroupSpec;
    PairCons(GroupSpec(rows, fcs[0]), GroupData(nodes, fcs[0]), GroupSpecs(rows, fcs[1..]), GroupsData(nodes, fcs[1..]), fcs[j]);
    if j > 0 {
      assert fcs[1..][j - 1] == fcs[j];
      GroupPair(nodes, fcs[1..], j - 1);
    }
  }

  lemma NamedByConstraint(rows: seq<Row>, fc: Text)
    ensures GroupSpec(rows, fc).name == fc
  {
  }

  lemma {:induction false} WithBRPair(
      fcs: seq<Text>, gs: seq<Component>, vs: seq<Data>, t: seq<Component>, v: seq<Data>, name: Text)
    requires |gs| == |vs| == |fcs| && |t| == |v| <= 1
    requires t != [] ==> t[0].name != name
    ensures Pair(WithBR(fcs, gs, t), WithBR(fcs, vs, v), name) == Pair(gs, vs, name)
    decreases |fcs|
  {
    hide Less;
    if fcs != [] && !Less(BR, fcs[0]) {
      PairCons(gs[0], vs[0], WithBR(fcs[1..], gs[1..], t), WithBR(fcs[1..], vs[1..], v), name);
      PairCons(gs[0], vs[0], gs[1..], vs[1..], name);
      assert gs == [gs[0]] + gs[1..] && vs == [vs[0]] + vs[1..];
      WithBRPair(fcs[1..], gs[1..], vs[1..], t, v, name);
    } else if t != [] {
      assert t == [t[0]] && v == [v[0]];
      PairCons(t[0], v[0], gs, vs, name);
      assert t + [] == t && v + [] == v;
      PairCons(t[0], v[0], [], [], name);
    } else {
      assert t + gs == gs && v + vs == vs;
    }
  }

  lemma ControlNamed(rcbs: seq<RCB>, ldInst: Text, lnName: Text)
    ensures |ControlGroupSpec(rcbs, ldInst, lnName)| == |ControlGroupData(rcbs, ldInst, lnName)| <= 1
    ensures ControlGroupSpec(rcbs, ldInst, lnName) != [] ==>
              ControlGroupSpec(rcbs, ldInst, lnName)[0].name == BR && AnyControl(rcbs, ldInst, lnName)
  {
    hide ControlSpecs;
    ControlGroupMatches(rcbs, ldInst, lnName);
  }

  lemma GroupFound(ln: Node, rcbs: seq<RCB>, ldInst: Text, fc: FCName)
    requires Uses(ln.children, fc) && (fc == BR ==> !AnyControl(rcbs, ldInst, ln.name))
    ensures NodeSpec(ln, rcbs, ldInst).StructureType? && NodeData(ln, rcbs, ldInst).StructureOf?
    ensures Pair(NodeSpec(ln, rcbs, ldInst).components, NodeData(ln, rcbs, ldInst).members, fc)
         == Some((GroupSpec(Rows(ln.children, 0), fc).spec, GroupData(ln.children, fc)))
  {
    hide Pair;
    hide Rows;
    hide RowFCs;
    hide NodeFCs;
    hide Sort;
    hide WithBR;
    hide GroupSpec;
    hide GroupData;
    hide GroupSpecs;
    hide GroupsData;
    hide ControlGroupSpec;
    hide ControlGroupData;
    hide Uses;
    hide AnyControl;
    var nodes := ln.children;
    assert nodes[0..] == nodes;
    SameFCs(nodes, 0, []);
    NodeFCsMembers(nodes, []);
    var fcs := NodeFCs(nodes, []);
    SortDistinct(fcs);
    UsesExactly(nodes, fc);
    var sorted := Sort(fcs);
    var j :| 0 <= j < |sorted| && sorted[j] == fc;
    IncreasingDistinct(sorted);
    GroupPair(nodes, sorted, j);
    ControlNamed(rcbs, ldInst, ln.name);
    WithBRPair(sorted, GroupSpecs(Rows(nodes, 0), sorted), GroupsData(nodes, sorted),
               ControlGroupSpec(rcbs, ldInst, ln.name), ControlGroupData(rcbs, ldInst, ln.name), fc);
  }

  /**
   * In a logical node whose siblings have distinct names: under its constraint and the names on its path, a client finds
   * the value of every attribute, unless a constructed array lies on the way or control blocks take the constraint's
   * place.
   */
  lemma AttributeFoundByName(ln: Node, rcbs: seq<RCB>, ldInst: Text, p: Position)
    requires DistinctSiblings(ln.children) && |p| >= 2 && Leads(ln.children, DO, p)
    requires p[0] < |ln.children| && p[1] < |ln.children[p[0]].children| && ln.children[p[0]].children[p[1]].kind.DataAttribute?
    requires Regular(ln.children[p[0]].children[p[1]])
    requires ln.children[p[0]].children[p[1]].kind.fc == BR ==> !AnyControl(rcbs, ldInst, ln.name)
    ensures var fc := ln.children[p[0]].children[p[1]].kind.fc;
            Select(NodeSpec(ln, rcbs, ldInst), NodeData(ln, rcbs, ldInst), [fc] + NamesAlong(ln.children, DO, p))
            == Some(AttributeData(Reached(ln.children, DO, p)))
  {
    hide Pair;
    hide NodeSpec;
    hide NodeData;
    hide GroupSpec;
    hide GroupData;
    hide Rows;
    hide OfConstraint;
    hide AttributeSpec;
    hide AttributeData;
    hide AttributeSpecs;
    hide AttributesData;
    hide Regular;
    hide NamesAlong;
    var nodes := ln.children;
    FirstStep(nodes, DO, p);
    var o, q := nodes[p[0]], p[1..];
    FirstStep(o.children, DA, q);
    var da, r := o.children[q[0]], q[1..];
    var fc := da.kind.fc;
    var names := NamesAlong(nodes, DO, p);
    var path := [fc] + names;
    assert path[1..] == names;
    assert OfFC(da, fc) && HasFC(o, fc);
    assert Uses(nodes, fc);
    GroupFound(ln, rcbs, ldInst, fc);
    OneMore(NodeSpec(ln, rcbs, ldInst), NodeData(ln, rcbs, ldInst), path);
    assert DistinctChildren(o);
    GroupObject(nodes, fc, p[0]);
    OneMore(GroupSpec(Rows(nodes, 0), fc).spec, GroupData(nodes, fc), names);
    ConstraintPair(o.children, fc, q[0]);
    var das := OfConstraint(o.children, fc);
    OneMore(StructureType(AttributeSpecs(das)), StructureOf(AttributesData(das)), names[1..]);
    if |q| == 1 {
      NoNames(da.children);
    } else {
      assert DistinctChildren(da);
      AttributeSelected(da, r);
    }
  }

  // ---- Order ----

  function ComponentNames(cs: seq<Component>): seq<Text> {
    if cs == [] then [] else [cs[0].name] + ComponentNames(cs[1..])
  }

  lemma {:induction false} GroupNames(rows: seq<Row>, fcs: seq<Text>)
    ensures ComponentNames(GroupSpecs(rows, fcs)) == fcs
  {
    if fcs != [] {
      NamedByConstraint(rows, fcs[0]);
      hide GroupSpec;
      GroupNames(rows, fcs[1..]);
    }
  }

  lemma {:induction false} ObjectNames(rows: seq<Row>, fc: Text, names: seq<Text>)
    ensures ComponentNames(ObjectSpecs(rows, fc, names)) == names
  {
    hide AttributeSpecs;
    hide RowDAs;
    if names != [] {
      ObjectNames(rows, fc, names[1..]);
    }
  }

  lemma NamesCons(c: Component, cs: seq<Component>)
    ensures ComponentNames([c] + cs) == [c.name] + ComponentNames(cs)
  {
    assert ([c] + cs)[1..] == cs;
  }

  lemma TailAscends(fcs: seq<Text>)
    requires fcs != [] && Ascending(fcs)
    ensures Ascending(fcs[1..]) && (|fcs| > 1 ==> !Less(fcs[1], fcs[0]))
  {
  }

  /** The control block group goes where its name belongs. */
  lemma {:induction false} WithBRAscends(fcs: seq<Text>, gs: seq<Component>, t: seq<Component>)
    requires |gs| == |fcs| && ComponentNames(gs) == fcs && Ascending(fcs)
    requires |t| <= 1 && (t != [] ==> t[0].name == BR)
    ensures var names := ComponentNames(WithBR(fcs, gs, t));
            && Ascending(names)
            && (names != [] ==> names[0] == BR || (fcs != [] && names[0] == fcs[0]))
            && multiset(names) == multiset(fcs) + multiset(ComponentNames(t))
    decreases |fcs|
  {
    hide Less;
    hide Ascending;
    if t == [] {
      NothingPlaced(fcs, gs);
      assert multiset(ComponentNames(t)) == multiset{};
    } else {
      assert t == [t[0]] && t + [] == t;
      NamesCons(t[0], []);
      NamesCons(t[0], gs);
      if fcs == [] {
        assert [BR] + ComponentNames([]) == [BR];
        OneAscends(BR);
      } else if Less(BR, fcs[0]) {
        LessTotal(BR, fcs[0]);
        AscendingCons(BR, fcs);
      } else {
        TailNamed(fcs, gs);
        TailAscends(fcs);
        WithBRAscends(fcs[1..], gs[1..], t);
        var rest := WithBR(fcs[1..], gs[1..], t);
        assert WithBR(fcs, gs, t) == [gs[0]] + rest;
        NamesCons(gs[0], rest);
        AscendingCons(fcs[0], ComponentNames(rest));
        MultisetCons(fcs, ComponentNames(rest), ComponentNames(t));
      }
    }
  }

  lemma TailNamed(fcs: seq<Text>, gs: seq<Component>)
    requires fcs != [] && |gs| == |fcs| && ComponentNames(gs) == fcs
    ensures ComponentNames(gs[1..]) == fcs[1..] && gs[0].name == fcs[0]
  {
    assert ([gs[0].name] + ComponentNames(gs[1..]))[1..] == ComponentNames(gs[1..]);
  }

  lemma MultisetCons(fcs: seq<Text>, names: seq<Text>, more: seq<Text>)
    requires fcs != [] && multiset(names) == multiset(fcs[1..]) + multiset(more)
    ensures multiset([fcs[0]] + names) == multiset(fcs) + multiset(more)
  {
    assert fcs == [fcs[0]] + fcs[1..];
  }

  lemma OneAscends(x: Text)
    ensures Ascending([x])
  {
  }

  lemma {:induction false} NothingPlaced(fcs: seq<Text>, gs: seq<Component>)
    requires |gs| == |fcs|
    ensures WithBR(fcs, gs, []) == gs
  {
    if fcs != [] && !Less(BR, fcs[0]) {
      NothingPlaced(fcs[1..], gs[1..]);
      assert gs == [gs[0]] + gs[1..];
    }
  }

  /** An object with an attribute of this constraint has this name. */
  predicate Named(nodes: seq<Node>, fc: Text, x: Text) {
    exists i, j ::
      && 0 <= i < |nodes| && nodes[i].kind.DataObject? && nodes[i].name == x
      && 0 <= j < |nodes[i].children| && nodes[i].children[j].kind.DataAttribute? && nodes[i].children[j].kind.fc == fc
  }

  lemma {:induction false} DedupeHas(names: seq<Text>, seen: seq<Text>, x: Text)
    ensures x in Dedupe(names, seen) <==> x in seen || x in names
    decreases |names|
  {
    if names != [] {
      DedupeHas(names[1..], Noted(seen, names[0]), x);
    }
  }

  lemma ObjectsNamed(nodes: seq<Node>, fc: Text, x: Text)
    ensures x in NamesOf(nodes, ObjectsWith(nodes, fc, 0)) <==> Named(nodes, fc, x)
  {
    hide ObjectsWith;
    var which := ObjectsWith(nodes, fc, 0);
    if x in NamesOf(nodes, which) {
      var k :| 0 <= k < |which| && nodes[which[k]].name == x;
      var o := nodes[which[k]];
      var j :| 0 <= j < |o.children| && OfFC(o.children[j], fc);
    }
    if i, j :|
      && 0 <= i < |nodes| && nodes[i].kind.DataObject? && nodes[i].name == x
      && 0 <= j < |nodes[i].children| && nodes[i].children[j].kind.DataAttribute? && nodes[i].children[j].kind.fc == fc {
      assert OfFC(nodes[i].children[j], fc);
      ObjectsWithHas(nodes, fc, 0, i);
      var k :| 0 <= k < |which| && which[k] == i;
      assert NamesOf(nodes, which)[k] == x;
    }
  }

  /**
   * The type of a logical node lists its constraints, and BR if there are control blocks, in ascending order, and the
   * objects under each constraint in ascending order of their names.
   */
  lemma TypeInOrder(ln: Node, rcbs: seq<RCB>, ldInst: Text, fc: Text)
    ensures NodeSpec(ln, rcbs, ldInst).StructureType?
    ensures var names := ComponentNames(NodeSpec(ln, rcbs, ldInst).components);
            && Ascending(names)
            && (forall x: FCName :: x in names <==> Uses(ln.children, x) || (x == BR && ControlGroupSpec(rcbs, ldInst, ln.name) != []))
    ensures var group := GroupSpec(Rows(ln.children, 0), fc).spec;
            && group.StructureType?
            && Ascending(ComponentNames(group.components))
            && forall x :: x in ComponentNames(group.components) <==> Named(ln.children, fc, x)
  {
    hide Rows;
    hide RowFCs;
    hide RowNames;
    hide NodeFCs;
    hide Sort;
    hide Ascending;
    hide WithBR;
    hide GroupSpecs;
    hide ObjectSpecs;
    hide ControlGroupSpec;
    hide Uses;
    hide ComponentNames;
    var nodes, rows := ln.children, Rows(ln.children, 0);
    assert nodes[0..] == nodes;
    SameFCs(nodes, 0, []);
    var fcs := NodeFCs(nodes, []);
    SortSorts(fcs);
    var sorted := Sort(fcs);
    GroupNames(rows, sorted);
    ControlNamed(rcbs, ldInst, ln.name);
    var t := ControlGroupSpec(rcbs, ldInst, ln.name);
    WithBRAscends(sorted, GroupSpecs(rows, sorted), t);
    ControlNames(t);
    var names := ComponentNames(WithBR(sorted, GroupSpecs(rows, sorted), t));
    forall x: FCName ensures x in names <==> Uses(nodes, x) || (x == BR && t != []) {
      UsesExactly(nodes, x);
      SortKeeps(fcs, x);
      InMultiset(names, sorted, ComponentNames(t), x);
    }
    var objects := RowNames(rows, fc, []);
    SortSorts(objects);
    ObjectNames(rows, fc, Sort(objects));
    forall x ensures x in Sort(objects) <==> Named(nodes, fc, x) {
      SortKeeps(objects, x);
      RowNamesAreObjectNames(nodes, fc, 0, []);
      DedupeHas(NamesOf(nodes, ObjectsWith(nodes, fc, 0)), [], x);
      ObjectsNamed(nodes, fc, x);
    }
  }

  lemma ControlNames(t: seq<Component>)
    requires |t| <= 1 && (t != [] ==> t[0].name == BR)
    ensures ComponentNames(t) == if t == [] then [] else [BR]
  {
    if t != [] {
      assert t[1..] == [];
    }
  }

  lemma InMultiset(a: seq<Text>, b: seq<Text>, c: seq<Text>, x: Text)
    requires multiset(a) == multiset(b) + multiset(c)
    ensures x in a <==> x in b || x in c
  {
    assert x in a <==> multiset(a)[x] > 0;
    assert x in b <==> multiset(b)[x] > 0;
    assert x in c <==> multiset(c)[x] > 0;
  }
}
