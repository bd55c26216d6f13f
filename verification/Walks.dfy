/** The two walks over a logical node: its MMS type specification and its MMS value. */
module Walks {
  import opened Bytes
  import opened Texts
  import opened Model
  import opened NameList

  // ---- Type specifications ----

  datatype TypeSpec =
    | StructureType(components: seq<Component>)
    | ArrayType(count: int, element: TypeSpec)
    | AttributeType(of: Node)
    | ControlType(field: BrcbField)

  datatype Component = Component(name: Text, spec: TypeSpec)

  /** buildTypeSpecDA. */
  function AttributeSpec(da: Node): TypeSpec
    decreases da, 1
  {
    var elementCount := if da.kind.DataAttribute? then da.kind.elementCount else 0;
    if elementCount > 0 then ArrayType(elementCount, ScalarSpec(da)) else ScalarSpec(da)
  }

  /** buildTypeSpecDAScalar. */
  function ScalarSpec(da: Node): TypeSpec
    decreases da, 0
  {
    if |da.children| > 0 then StructureType(AttributeSpecs(da.children)) else AttributeType(da)
  }

  function AttributeSpecs(nodes: seq<Node>): seq<Component>
    decreases nodes
  {
    if nodes == [] then []
    else
      (if nodes[0].kind.DataAttribute? then [Component(nodes[0].name, AttributeSpec(nodes[0]))] else [])
      + AttributeSpecs(nodes[1..])
  }

  /** The components of a control block in the order of buildTypeSpecBRCB. */
  const TYPE_FIELDS: seq<BrcbField> := [RptID, RptEna, DatSet, ConfRev, OptFlds, BufTm, SqNum, TrgOps, IntgPd, GI,
                       PurgeBuf, EntryID, TimeofEntry]

  function ControlTypes(fields: seq<BrcbField>): seq<Component> {
    if fields == [] then [] else [Component([], ControlType(fields[0]))] + ControlTypes(fields[1..])
  }

  function ControlSpecs(rcbs: seq<RCB>, ldInst: Text, lnName: Text): seq<Component> {
    if rcbs == [] then []
    else
      (if Controls(rcbs[0], ldInst, lnName) then [Component(rcbs[0].name, StructureType(ControlTypes(TYPE_FIELDS)))] else [])
      + ControlSpecs(rcbs[1..], ldInst, lnName)
  }

  // ---- Values ----

  datatype Data =
    | StructureOf(members: seq<Data>)
    | AttributeValue(of: Node)
    | ControlValue(field: BrcbField)

  /** buildValueFromDA; the stored or zero value of a leaf is left to the attribute. */
  function AttributeData(da: Node): Data
    decreases da, 0
  {
    if |da.children| > 0 then StructureOf(AttributesData(da.children)) else AttributeValue(da)
  }

  function AttributesData(nodes: seq<Node>): seq<Data>
    decreases nodes
  {
    if nodes == [] then []
    else (if nodes[0].kind.DataAttribute? then [AttributeData(nodes[0])] else []) + AttributesData(nodes[1..])
  }

  /** The members of a control block in the order of asValues. */
  const VALUE_FIELDS: seq<BrcbField> := [RptID, RptEna, DatSet, ConfRev, OptFlds, BufTm, SqNum, TrgOps, IntgPd, GI,
                        PurgeBuf, EntryID, TimeofEntry]

  function ControlValues(fields: seq<BrcbField>): seq<Data> {
    if fields == [] then [] else [ControlValue(fields[0])] + ControlValues(fields[1..])
  }

  // ---- Attributes of one constraint ----

  function OfConstraint(attributes: seq<Node>, fc: Text): seq<Node> {
    if attributes == [] then []
    else (if OfFC(attributes[0], fc) then [attributes[0]] else []) + OfConstraint(attributes[1..], fc)
  }

  // ---- The type walk: rows grouped by constraint and by object name ----

  /** One attribute of a data object, as the type walk meets it. */
  datatype Row = Row(name: Text, da: Node)

  function ObjectRows(name: Text, attributes: seq<Node>): seq<Row> {
    if attributes == [] then []
    else (if attributes[0].kind.DataAttribute? then [Row(name, attributes[0])] else []) + ObjectRows(name, attributes[1..])
  }

  function Rows(nodes: seq<Node>, k: nat): seq<Row>
    decreases |nodes| - k
  {
    if k >= |nodes| then []
    else (if nodes[k].kind.DataObject? then ObjectRows(nodes[k].name, nodes[k].children) else []) + Rows(nodes, k + 1)
  }

  function Noted(seen: seq<Text>, x: Text): seq<Text> {
    if x in seen then seen else seen + [x]
  }

  /** fcOrder after these rows. */
  function RowFCs(rows: seq<Row>, seen: seq<Text>): seq<Text> {
    if rows == [] then seen
    else RowFCs(rows[1..], if rows[0].da.kind.DataAttribute? then Noted(seen, rows[0].da.kind.fc) else seen)
  }

  /** fcMap[fc] after these rows. */
  function RowNames(rows: seq<Row>, fc: Text, seen: seq<Text>): seq<Text> {
    if rows == [] then seen
    else RowNames(rows[1..], fc, if OfFC(rows[0].da, fc) then Noted(seen, rows[0].name) else seen)
  }

  /** doFCDAs[name][fc] after these rows. */
  function RowDAs(rows: seq<Row>, name: Text, fc: Text): seq<Node> {
    if rows == [] then []
    else (if rows[0].name == name && OfFC(rows[0].da, fc) then [rows[0].da] else []) + RowDAs(rows[1..], name, fc)
  }

  function ObjectSpecs(rows: seq<Row>, fc: Text, names: seq<Text>): seq<Component> {
    if names == [] then []
    else
      [Component(names[0], StructureType(AttributeSpecs(RowDAs(rows, names[0], fc))))] + ObjectSpecs(rows, fc, names[1..])
  }

  function GroupSpec(rows: seq<Row>, fc: Text): Component {
    Component(fc, StructureType(ObjectSpecs(rows, fc, Sort(RowNames(rows, fc, [])))))
  }

  function GroupSpecs(rows: seq<Row>, fcs: seq<Text>): (r: seq<Component>)
    ensures |r| == |fcs|
  {
    if fcs == [] then [] else [GroupSpec(rows, fcs[0])] + GroupSpecs(rows, fcs[1..])
  }

  /** Both walks put the control block group before the first constraint above BR, or last. */
  function WithBR<T>(fcs: seq<Text>, groups: seq<T>, br: seq<T>): seq<T>
    requires |groups| == |fcs|
  {
    if fcs == [] then br
    else if Less(BR, fcs[0]) then br + groups
    else [groups[0]] + WithBR(fcs[1..], groups[1..], br)
  }

  function ControlGroupSpec(rcbs: seq<RCB>, ldInst: Text, lnName: Text): seq<Component> {
    var comps := ControlSpecs(rcbs, ldInst, lnName);
    if comps == [] then [] else [Component(BR, StructureType(comps))]
  }

  /** buildTypeSpecLN. */
  function NodeSpec(ln: Node, rcbs: seq<RCB>, ldInst: Text): TypeSpec {
    var rows := Rows(ln.children, 0);
    var fcs := Sort(RowFCs(rows, []));
    StructureType(WithBR(fcs, GroupSpecs(rows, fcs), ControlGroupSpec(rcbs, ldInst, ln.name)))
  }

  // ---- The value walk: objects grouped by constraint, sorted by name ----

  function InsertObject(nodes: seq<Node>, i: nat, which: seq<nat>): (r: seq<nat>)
    requires i < |nodes| && Indices(which, nodes)
    ensures Indices(r, nodes)
  {
    if which == [] || !Less(nodes[which[0]].name, nodes[i].name) then [i] + which
    else [which[0]] + InsertObject(nodes, i, which[1..])
  }

  /** sort.Slice by name. */
  function SortObjects(nodes: seq<Node>, which: seq<nat>): (r: seq<nat>)
    requires Indices(which, nodes)
    ensures Indices(r, nodes)
  {
    if which == [] then [] else InsertObject(nodes, which[0], SortObjects(nodes, which[1..]))
  }

  function ObjectsData(nodes: seq<Node>, fc: Text, which: seq<nat>): seq<Data>
    requires Indices(which, nodes)
  {
    if which == [] then []
    else [StructureOf(AttributesData(OfConstraint(nodes[which[0]].children, fc)))] + ObjectsData(nodes, fc, which[1..])
  }

  function GroupData(nodes: seq<Node>, fc: Text): Data {
    StructureOf(ObjectsData(nodes, fc, SortObjects(nodes, ObjectsWith(nodes, fc, 0))))
  }

  function GroupsData(nodes: seq<Node>, fcs: seq<Text>): (r: seq<Data>)
    ensures |r| == |fcs|
  {
    if fcs == [] then [] else [GroupData(nodes, fcs[0])] + GroupsData(nodes, fcs[1..])
  }

  function ControlGroupData(rcbs: seq<RCB>, ldInst: Text, lnName: Text): seq<Data> {
    if AnyControl(rcbs, ldInst, lnName) then [StructureOf([StructureOf(ControlValues(VALUE_FIELDS))])] else []
  }

  /** buildStructureFromLNWithBR. */
  function NodeData(ln: Node, rcbs: seq<RCB>, ldInst: Text): Data {
    var fcs := Sort(NodeFCs(ln.children, []));
    StructureOf(WithBR(fcs, GroupsData(ln.children, fcs), ControlGroupData(rcbs, ldInst, ln.name)))
  }
}
