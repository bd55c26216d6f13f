/** buildTypeSpecLN and buildStructureFromLNWithBR as the loops they are. */
module WalkLoops {
  import opened Bytes
  import opened Texts
  import opened Model
  import opened NameList
  import opened NameListing
  import opened Walks

  function NamesUnder(fcMap: map<Text, seq<Text>>, fc: Text): seq<Text> {
    if fc in fcMap then fcMap[fc] else []
  }

  function DAsUnder(doFCDAs: map<(Text, Text), seq<Node>>, name: Text, fc: Text): seq<Node> {
    if (name, fc) in doFCDAs then doFCDAs[(name, fc)] else []
  }

  /** The maps hold what the rows before `rest` put there. */
  ghost predicate Filing(all: seq<Row>, rest: seq<Row>, fcOrder: seq<Text>, fcMap: map<Text, seq<Text>>,
                         doFCDAs: map<(Text, Text), seq<Node>>) {
    && RowFCs(rest, fcOrder) == RowFCs(all, [])
    && (forall fc :: RowNames(rest, fc, NamesUnder(fcMap, fc)) == RowNames(all, fc, []))
    && (forall name, fc :: DAsUnder(doFCDAs, name, fc) + RowDAs(rest, name, fc) == RowDAs(all, name, fc))
  }

  lemma FilingStarts(all: seq<Row>)
    ensures Filing(all, all, [], map[], map[])
  {
    hide RowDAs;
    forall name, fc ensures DAsUnder(map[], name, fc) + RowDAs(all, name, fc) == RowDAs(all, name, fc) {
    }
  }

  lemma FilingEnds(all: seq<Row>, fcOrder: seq<Text>, fcMap: map<Text, seq<Text>>, doFCDAs: map<(Text, Text), seq<Node>>)
    requires Filing(all, [], fcOrder, fcMap, doFCDAs)
    ensures fcOrder == RowFCs(all, [])
    ensures forall fc :: NamesUnder(fcMap, fc) == RowNames(all, fc, [])
    ensures forall name, fc :: DAsUnder(doFCDAs, name, fc) == RowDAs(all, name, fc)
  {
    forall fc ensures NamesUnder(fcMap, fc) == RowNames(all, fc, []) {
      assert RowNames([], fc, NamesUnder(fcMap, fc)) == RowNames(all, fc, []);
    }
    forall name, fc ensures DAsUnder(doFCDAs, name, fc) == RowDAs(all, name, fc) {
      assert DAsUnder(doFCDAs, name, fc) + RowDAs([], name, fc) == RowDAs(all, name, fc);
      assert DAsUnder(doFCDAs, name, fc) + [] == DAsUnder(doFCDAs, name, fc);
    }
  }

  lemma RowFiled(all: seq<Row>, row: Row, rest: seq<Row>, fcOrder: seq<Text>, fcMap: map<Text, seq<Text>>,
                 doFCDAs: map<(Text, Text), seq<Node>>)
    requires row.da.kind.DataAttribute? && Filing(all, [row] + rest, fcOrder, fcMap, doFCDAs)
    ensures var fc := row.da.kind.fc;
            Filing(all, rest, Noted(fcOrder, fc), fcMap[fc := Noted(NamesUnder(fcMap, fc), row.name)],
                   doFCDAs[(row.name, fc) := DAsUnder(doFCDAs, row.name, fc) + [row.da]])
  {
    var fc := row.da.kind.fc;
    var fcMap' := fcMap[fc := Noted(NamesUnder(fcMap, fc), row.name)];
    var doFCDAs' := doFCDAs[(row.name, fc) := DAsUnder(doFCDAs, row.name, fc) + [row.da]];
    assert ([row] + rest)[1..] == rest;
    forall f ensures RowNames(rest, f, NamesUnder(fcMap', f)) == RowNames(all, f, []) {
      assert RowNames([row] + rest, f, NamesUnder(fcMap, f)) == RowNames(all, f, []);
    }
    forall name, f ensures DAsUnder(doFCDAs', name, f) + RowDAs(rest, name, f) == RowDAs(all, name, f) {
      assert DAsUnder(doFCDAs, name, f) + RowDAs([row] + rest, name, f) == RowDAs(all, name, f);
    }
  }

  /** The collecting loop of the type walk. */
  method CollectRows(ln: Node)
    returns (fcOrder: seq<Text>, fcMap: map<Text, seq<Text>>, doFCDAs: map<(Text, Text), seq<Node>>)
    ensures fcOrder == RowFCs(Rows(ln.children, 0), [])
    ensures forall fc :: NamesUnder(fcMap, fc) == RowNames(Rows(ln.children, 0), fc, [])
    ensures forall name, fc :: DAsUnder(doFCDAs, name, fc) == RowDAs(Rows(ln.children, 0), name, fc)
  {
    hide Filing;
    hide RowFCs;
    hide RowNames;
    hide RowDAs;
    hide ObjectRows;
    hide Noted;
    fcOrder, fcMap, doFCDAs := [], map[], map[];
    ghost var all := Rows(ln.children, 0);
    FilingStarts(all);
    for i := 0 to |ln.children|
      invariant Filing(all, Rows(ln.children, i), fcOrder, fcMap, doFCDAs)
    {
      var n := ln.children[i];
      ghost var later := Rows(ln.children, i + 1);
      assert Rows(ln.children, i) == if n.kind.DataObject? then ObjectRows(n.name, n.children) + later else later;
      if n.kind.DataObject? {
        assert n.children[0..] == n.children;
        for j := 0 to |n.children|
          invariant Filing(all, ObjectRows(n.name, n.children[j..]) + later, fcOrder, fcMap, doFCDAs)
        {
          var da := n.children[j];
          ObjectRowsNext(n.name, n.children, j, later);
          if da.kind.DataAttribute? {
            var fc := da.kind.fc;
            RowFiled(all, Row(n.name, da), ObjectRows(n.name, n.children[j + 1..]) + later, fcOrder, fcMap, doFCDAs);
            doFCDAs := doFCDAs[(n.name, fc) := DAsUnder(doFCDAs, n.name, fc) + [da]];
            fcOrder := Noted(fcOrder, fc);
            fcMap := fcMap[fc := Noted(NamesUnder(fcMap, fc), n.name)];
          }
        }
        NoRows(n.name, n.children[|n.children|..], later);
      }
    }
    FilingEnds(all, fcOrder, fcMap, doFCDAs);
  }

  lemma ObjectRowsNext(name: Text, attributes: seq<Node>, j: nat, later: seq<Row>)
    requires j < |attributes|
    ensures ObjectRows(name, attributes[j..]) + later
         == (if attributes[j].kind.DataAttribute? then [Row(name, attributes[j])] else [])
            + (ObjectRows(name, attributes[j + 1..]) + later)
    ensures [] + (ObjectRows(name, attributes[j + 1..]) + later) == ObjectRows(name, attributes[j + 1..]) + later
  {
    assert attributes[j..][1..] == attributes[j + 1..];
  }

  lemma NoRows(name: Text, attributes: seq<Node>, later: seq<Row>)
    requires attributes == []
    ensures ObjectRows(name, attributes) + later == later
  {
  }

  /** One constraint group of the type. */
  method BuildGroupSpec(fc: Text, doNames: seq<Text>, doFCDAs: map<(Text, Text), seq<Node>>, ghost rows: seq<Row>)
    returns (c: Component)
    requires doNames == Sort(RowNames(rows, fc, []))
    requires forall name :: DAsUnder(doFCDAs, name, fc) == RowDAs(rows, name, fc)
    ensures c == GroupSpec(rows, fc)
  {
    hide RowDAs;
    hide RowNames;
    hide Sort;
    hide DAsUnder;
    hide AttributeSpecs;
    var doComponents: seq<Component> := [];
    assert doNames[0..] == doNames;
    for i := 0 to |doNames|
      invariant doComponents + ObjectSpecs(rows, fc, doNames[i..]) == ObjectSpecs(rows, fc, doNames)
    {
      assert doNames[i..][1..] == doNames[i + 1..];
      var das := DAsUnder(doFCDAs, doNames[i], fc);
      doComponents := doComponents + [Component(doNames[i], StructureType(AttributeSpecs(das)))];
    }
    assert doComponents + [] == doComponents;
    return Component(fc, StructureType(doComponents));
  }

  lemma {:induction false} WithoutBR<T>(fcs: seq<Text>, groups: seq<T>)
    requires |groups| == |fcs|
    ensures WithBR(fcs, groups, []) == groups
  {
    hide Less;
    if fcs != [] {
      WithoutBR(fcs[1..], groups[1..]);
    }
  }

  /** One turn of either second loop: the control group goes in front if it has not been placed and sorts first. */
  lemma WithBRNext<T>(fcs: seq<Text>, groups: seq<T>, br: seq<T>)
    requires |groups| == |fcs| && fcs != []
    ensures WithBR(fcs, groups, br)
         == if Less(BR, fcs[0]) then br + [groups[0]] + WithBR(fcs[1..], groups[1..], [])
            else [groups[0]] + WithBR(fcs[1..], groups[1..], br)
  {
    hide Less;
    WithoutBR(fcs[1..], groups[1..]);
    assert groups == [groups[0]] + groups[1..];
  }

  /** What is still to come of the type walk at its turn `i`. */
  ghost function SpecsToCome(rows: seq<Row>, fcs: seq<Text>, i: nat, br: seq<Component>): seq<Component>
    requires i <= |fcs|
  {
    WithBR(fcs[i..], GroupSpecs(rows, fcs[i..]), br)
  }

  lemma SpecTurn(rows: seq<Row>, fcs: seq<Text>, i: nat, br: seq<Component>)
    requires i < |fcs|
    ensures SpecsToCome(rows, fcs, i, br)
         == if Less(BR, fcs[i]) then br + [GroupSpec(rows, fcs[i])] + SpecsToCome(rows, fcs, i + 1, [])
            else [GroupSpec(rows, fcs[i])] + SpecsToCome(rows, fcs, i + 1, br)
  {
    hide GroupSpec;
    hide Less;
    assert fcs[i..][1..] == fcs[i + 1..];
    WithBRNext(fcs[i..], GroupSpecs(rows, fcs[i..]), br);
    assert GroupSpecs(rows, fcs[i..])[1..] == GroupSpecs(rows, fcs[i + 1..]);
  }

  /** What a turn appends, against what the specification puts there. */
  lemma TurnTaken<T>(before: seq<T>, waiting: seq<T>, first: bool, group: T, later: seq<T>)
    ensures first ==> before + (waiting + [group] + later) == before + waiting + [group] + later
    ensures before + ([group] + later) == before + [group] + later
    ensures waiting == [] ==> before + (waiting + [group] + later) == before + [group] + later
  {
    if waiting == [] {
      assert waiting + [group] == [group];
    }
  }

  method BuildTypeSpecLN(ln: Node, rcbs: seq<RCB>, ldInst: Text) returns (t: TypeSpec)
    ensures t == NodeSpec(ln, rcbs, ldInst)
  {
    hide GroupSpec;
    hide RowFCs;
    hide RowNames;
    hide RowDAs;
    hide Rows;
    hide Sort;
    hide SpecsToCome;
    hide Less;
    hide ControlGroupSpec;
    hide NamesUnder;
    hide DAsUnder;
    hide GroupSpecs;
    hide WithBR;
    var fcOrder, fcMap, doFCDAs := CollectRows(ln);
    ghost var rows := Rows(ln.children, 0);
    var fcs := Sort(fcOrder);
    var brTypeSpec := ControlGroupSpec(rcbs, ldInst, ln.name);
    ghost var br := brTypeSpec;
    var lnComponents: seq<Component> := [];
    for i := 0 to |fcs|
      invariant lnComponents + SpecsToCome(rows, fcs, i, brTypeSpec) == SpecsToCome(rows, fcs, 0, br)
    {
      SpecTurn(rows, fcs, i, brTypeSpec);
      ghost var before, waiting := lnComponents, brTypeSpec;
      if brTypeSpec != [] && Less(BR, fcs[i]) {
        lnComponents := lnComponents + brTypeSpec;
        brTypeSpec := [];
      }
      var group := BuildGroupSpec(fcs[i], Sort(NamesUnder(fcMap, fcs[i])), doFCDAs, rows);
      lnComponents := lnComponents + [group];
      TurnTaken(before, waiting, Less(BR, fcs[i]), group, SpecsToCome(rows, fcs, i + 1, brTypeSpec));
    }
    SpecsEnd(rows, fcs, brTypeSpec, br);
    lnComponents := lnComponents + brTypeSpec;
    return StructureType(lnComponents);
  }

  lemma SpecsEnd(rows: seq<Row>, fcs: seq<Text>, left: seq<Component>, br: seq<Component>)
    ensures SpecsToCome(rows, fcs, |fcs|, left) == left
    ensures SpecsToCome(rows, fcs, 0, br) == WithBR(fcs, GroupSpecs(rows, fcs), br)
  {
    assert fcs[0..] == fcs;
  }

  // ---- The value walk ----

  /** One constraint group of the value. */
  method BuildGroupData(nodes: seq<Node>, fc: Text, dos: seq<nat>) returns (v: Data)
    requires dos == ObjectsWith(nodes, fc, 0)
    ensures v == GroupData(nodes, fc)
  {
    hide ObjectsWith;
    hide SortObjects;
    hide AttributesData;
    hide OfConstraint;
    var sorted := SortObjects(nodes, dos);
    var doMembers: seq<Data> := [];
    assert sorted[0..] == sorted;
    for i := 0 to |sorted|
      invariant doMembers + ObjectsData(nodes, fc, sorted[i..]) == ObjectsData(nodes, fc, sorted)
    {
      assert sorted[i..][1..] == sorted[i + 1..];
      var dMembers := BuildMembers(nodes[sorted[i]], fc);
      doMembers := doMembers + [StructureOf(dMembers)];
    }
    assert doMembers + [] == doMembers;
    return StructureOf(doMembers);
  }

  lemma MembersNext(attributes: seq<Node>, fc: Text, j: nat)
    requires j < |attributes|
    ensures AttributesData(OfConstraint(attributes[j..], fc))
         == (if OfFC(attributes[j], fc) then [AttributeData(attributes[j])] else [])
            + AttributesData(OfConstraint(attributes[j + 1..], fc))
  {
    hide AttributeData;
    assert attributes[j..][1..] == attributes[j + 1..];
    var rest := OfConstraint(attributes[j + 1..], fc);
    if OfFC(attributes[j], fc) {
      assert ([attributes[j]] + rest)[1..] == rest;
    } else {
      assert [] + rest == rest;
    }
  }

  method BuildMembers(n: Node, fc: Text) returns (dMembers: seq<Data>)
    ensures dMembers == AttributesData(OfConstraint(n.children, fc))
  {
    hide AttributesData;
    hide OfConstraint;
    hide OfFC;
    hide AttributeData;
    dMembers := [];
    assert n.children[0..] == n.children;
    for j := 0 to |n.children|
      invariant dMembers + AttributesData(OfConstraint(n.children[j..], fc)) == AttributesData(OfConstraint(n.children, fc))
    {
      MembersNext(n.children, fc, j);
      if OfFC(n.children[j], fc) {
        dMembers := dMembers + [AttributeData(n.children[j])];
      }
    }
    NoMembers(n.children[|n.children|..], fc);
  }

  lemma NoMembers(attributes: seq<Node>, fc: Text)
    requires attributes == []
    ensures AttributesData(OfConstraint(attributes, fc)) == []
  {
  }

  method BuildControlGroup(rcbs: seq<RCB>, ldInst: Text, lnName: Text) returns (br: seq<Data>)
    ensures br == ControlGroupData(rcbs, ldInst, lnName)
  {
    hide Controls;
    hide ControlValues;
    br := [];
    var i := 0;
    while i < |rcbs|
      invariant 0 <= i <= |rcbs| && br == []
      invariant forall j :: 0 <= j < i ==> !Controls(rcbs[j], ldInst, lnName)
    {
      if Controls(rcbs[i], ldInst, lnName) {
        br := [StructureOf([StructureOf(ControlValues(VALUE_FIELDS))])];
        break;
      }
      i := i + 1;
    }
  }

  /** What is still to come of the value walk at its turn `i`. */
  ghost function DataToCome(nodes: seq<Node>, fcs: seq<Text>, i: nat, br: seq<Data>): seq<Data>
    requires i <= |fcs|
  {
    WithBR(fcs[i..], GroupsData(nodes, fcs[i..]), br)
  }

  lemma DataNext(nodes: seq<Node>, fcs: seq<Text>, i: nat, left: seq<Data>)
    requires i < |fcs|
    ensures DataToCome(nodes, fcs, i, left)
         == if Less(BR, fcs[i]) then left + [GroupData(nodes, fcs[i])] + DataToCome(nodes, fcs, i + 1, [])
            else [GroupData(nodes, fcs[i])] + DataToCome(nodes, fcs, i + 1, left)
  {
    hide GroupData;
    hide Less;
    assert fcs[i..][1..] == fcs[i + 1..];
    WithBRNext(fcs[i..], GroupsData(nodes, fcs[i..]), left);
    assert GroupsData(nodes, fcs[i..])[1..] == GroupsData(nodes, fcs[i + 1..]);
  }

  lemma DataTurn(nodes: seq<Node>, fcs: seq<Text>, i: nat, left: seq<Data>, members: seq<Data>)
    requires i < |fcs|
    ensures var placed := if left != [] && Less(BR, fcs[i]) then members + left else members;
            members + DataToCome(nodes, fcs, i, left)
            == (placed + [GroupData(nodes, fcs[i])]) + DataToCome(nodes, fcs, i + 1, if Less(BR, fcs[i]) then [] else left)
  {
    hide GroupData;
    hide DataToCome;
    hide Less;
    DataNext(nodes, fcs, i, left);
    var g := GroupData(nodes, fcs[i]);
    if Less(BR, fcs[i]) {
      var rest := DataToCome(nodes, fcs, i + 1, []);
      assert members + (left + [g] + rest) == ((members + left) + [g]) + rest;
      assert members + [] == members;
    } else {
      var rest := DataToCome(nodes, fcs, i + 1, left);
      assert members + ([g] + rest) == (members + [g]) + rest;
    }
  }

  lemma DataEnd(nodes: seq<Node>, fcs: seq<Text>, left: seq<Data>, br: seq<Data>)
    ensures DataToCome(nodes, fcs, |fcs|, left) == left
    ensures DataToCome(nodes, fcs, 0, br) == WithBR(fcs, GroupsData(nodes, fcs), br)
  {
    assert fcs[0..] == fcs;
  }

  method SortedGroups(ln: Node) returns (fcs: seq<Text>, fcDOs: map<Text, seq<nat>>)
    ensures fcs == Sort(NodeFCs(ln.children, []))
    ensures forall fc :: Listed(fcDOs, fc) == ObjectsWith(ln.children, fc, 0)
  {
    hide NodeFCs;
    hide Sort;
    hide Listed;
    hide ObjectsWith;
    var fcOrder;
    fcOrder, fcDOs := CollectGroups(ln);
    NodeFCsMembers(ln.children, []);
    SortIgnoresOrder(fcOrder, NodeFCs(ln.children, []));
    fcs := Sort(fcOrder);
  }

  method BuildStructureFromLNWithBR(ln: Node, rcbs: seq<RCB>, ldInst: Text) returns (v: Data)
    ensures v == NodeData(ln, rcbs, ldInst)
  {
    hide GroupData;
    hide DataToCome;
    hide NodeFCs;
    hide Sort;
    hide Less;
    hide Listed;
    hide ObjectsWith;
    hide ControlGroupData;
    hide WithBR;
    hide GroupsData;
    var fcs, fcDOs := SortedGroups(ln);
    var brValue := BuildControlGroup(rcbs, ldInst, ln.name);
    var members: seq<Data> := [];
    var brInserted := false;
    ghost var left := brValue;
    for i := 0 to |fcs|
      invariant left == (if brInserted then [] else brValue)
      invariant members + DataToCome(ln.children, fcs, i, left) == DataToCome(ln.children, fcs, 0, brValue)
    {
      DataTurn(ln.children, fcs, i, left, members);
      var group := BuildGroupData(ln.children, fcs[i], Listed(fcDOs, fcs[i]));
      if brValue != [] && !brInserted && Less(BR, fcs[i]) {
        members := members + brValue;
        brInserted := true;
      }
      left := if Less(BR, fcs[i]) then [] else left;
      members := members + [group];
    }
    DataEnd(ln.children, fcs, left, brValue);
    if brValue != [] && !brInserted {
      members := members + brValue;
    }
    return StructureOf(members);
  }
}
