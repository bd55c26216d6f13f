/** When the type of a logical node describes its value: shape, order and attributes. */
module WalksAgree {
  import opened Bytes
  import opened Texts
  import opened Model
  import opened NameList
  import opened NameListing
  import opened Walks

  /** The value has the shape of the type, attribute for attribute; an array of leaves counts as a leaf. */
  predicate Matches(t: TypeSpec, v: Data)
    decreases t
  {
    match t
    case StructureType(components) => v.StructureOf? && MatchesAll(components, v.members)
    case ArrayType(_, element) => element.AttributeType? && v == AttributeValue(element.of)
    case AttributeType(n) => v == AttributeValue(n)
    case ControlType(field) => v == ControlValue(field)
  }

  predicate MatchesAll(components: seq<Component>, members: seq<Data>)
    decreases components
  {
    if components == [] || members == [] then components == [] && members == []
    else Matches(components[0].spec, members[0]) && MatchesAll(components[1..], members[1..])
  }

  lemma {:induction false} MatchesSize(components: seq<Component>, members: seq<Data>)
    requires MatchesAll(components, members)
    ensures |components| == |members|
    decreases |components|
  {
    hide Matches;
    if components != [] && members != [] {
      MatchesSize(components[1..], members[1..]);
    }
  }

  lemma {:induction false} MatchesConcat(a: seq<Component>, b: seq<Component>, x: seq<Data>, y: seq<Data>)
    requires |a| == |x|
    ensures MatchesAll(a + b, x + y) <==> MatchesAll(a, x) && MatchesAll(b, y)
    decreases |a|
  {
    hide Matches;
    if a == [] {
      assert a + b == b && x + y == y;
    } else {
      MatchesConcat(a[1..], b, x[1..], y);
      assert (a + b)[1..] == a[1..] + b && (x + y)[1..] == x[1..] + y;
    }
  }

  // ---- Attributes ----

  /** No constructed attribute at or below `da` is an array. */
  predicate Regular(da: Node)
    decreases da, 0
  {
    && (da.kind.DataAttribute? && |da.children| > 0 ==> da.kind.elementCount <= 0)
    && RegularAll(da.children)
  }

  predicate RegularAll(nodes: seq<Node>)
    decreases nodes
  {
    nodes == [] || ((nodes[0].kind.DataAttribute? ==> Regular(nodes[0])) && RegularAll(nodes[1..]))
  }

  lemma {:induction false} AttributeMatches(da: Node)
    requires da.kind.DataAttribute?
    ensures Matches(AttributeSpec(da), AttributeData(da)) <==> Regular(da)
    decreases da, 0
  {
    AttributesMatch(da.children);
  }

  lemma {:induction false} AttributesMatch(nodes: seq<Node>)
    ensures |AttributeSpecs(nodes)| == |AttributesData(nodes)|
    ensures MatchesAll(AttributeSpecs(nodes), AttributesData(nodes)) <==> RegularAll(nodes)
    decreases nodes, 1
  {
    hide Matches;
    hide Regular;
    if nodes != [] {
      AttributesMatch(nodes[1..]);
      if nodes[0].kind.DataAttribute? {
        AttributeMatches(nodes[0]);
        var t, v := Component(nodes[0].name, AttributeSpec(nodes[0])), AttributeData(nodes[0]);
        MatchesConcat([t], AttributeSpecs(nodes[1..]), [v], AttributesData(nodes[1..]));
        MatchesOne(t, v);
      } else {
        assert AttributeSpecs(nodes) == AttributeSpecs(nodes[1..]) && AttributesData(nodes) == AttributesData(nodes[1..]);
      }
    }
  }

  lemma MatchesOne(t: Component, v: Data)
    ensures MatchesAll([t], [v]) <==> Matches(t.spec, v)
  {
    hide Matches;
    assert [t][1..] == [] && [v][1..] == [];
  }

  // ---- The control block group ----

  lemma FieldsMatch()
    ensures MatchesAll(ControlTypes(TYPE_FIELDS), ControlValues(VALUE_FIELDS))
  {
    SameFieldsMatch(TYPE_FIELDS);
  }

  lemma {:induction false} SameFieldsMatch(fields: seq<BrcbField>)
    ensures MatchesAll(ControlTypes(fields), ControlValues(fields))
  {
    if fields != [] {
      SameFieldsMatch(fields[1..]);
    }
  }

  function ControlCount(rcbs: seq<RCB>, ldInst: Text, lnName: Text): nat {
    if rcbs == [] then 0
    else (if Controls(rcbs[0], ldInst, lnName) then 1 else 0) + ControlCount(rcbs[1..], ldInst, lnName)
  }

  lemma {:induction false} ControlSpecsSize(rcbs: seq<RCB>, ldInst: Text, lnName: Text)
    ensures |ControlSpecs(rcbs, ldInst, lnName)| == ControlCount(rcbs, ldInst, lnName)
    ensures AnyControl(rcbs, ldInst, lnName) <==> ControlCount(rcbs, ldInst, lnName) > 0
    ensures forall i :: 0 <= i < ControlCount(rcbs, ldInst, lnName) ==>
                          ControlSpecs(rcbs, ldInst, lnName)[i].spec == StructureType(ControlTypes(TYPE_FIELDS))
  {
    hide Controls;
    hide ControlTypes;
    if rcbs != [] {
      ControlSpecsSize(rcbs[1..], ldInst, lnName);
      AnyControlNext(rcbs, ldInst, lnName);
    }
  }

  lemma AnyControlNext(rcbs: seq<RCB>, ldInst: Text, lnName: Text)
    requires rcbs != []
    ensures AnyControl(rcbs, ldInst, lnName) <==> Controls(rcbs[0], ldInst, lnName) || AnyControl(rcbs[1..], ldInst, lnName)
  {
    hide Controls;
    if i :| 0 < i < |rcbs| && Controls(rcbs[i], ldInst, lnName) {
      assert rcbs[1..][i - 1] == rcbs[i];
    }
  }

  lemma NothingMatches()
    ensures MatchesAll([], [])
  {
  }

  lemma ControlGroupMatches(rcbs: seq<RCB>, ldInst: Text, lnName: Text)
    ensures |ControlGroupSpec(rcbs, ldInst, lnName)| == |ControlGroupData(rcbs, ldInst, lnName)| <= 1
    ensures MatchesAll(ControlGroupSpec(rcbs, ldInst, lnName), ControlGroupData(rcbs, ldInst, lnName))
       <==> ControlCount(rcbs, ldInst, lnName) <= 1
  {
    hide ControlSpecs;
    hide ControlTypes;
    hide ControlValues;
    hide AnyControl;
    hide Matches;
    hide MatchesAll;
    ControlSpecsSize(rcbs, ldInst, lnName);
    NothingMatches();
    var comps := ControlSpecs(rcbs, ldInst, lnName);
    var value := [StructureOf(ControlValues(VALUE_FIELDS))];
    if comps != [] {
      MatchesOne(Component(BR, StructureType(comps)), StructureOf(value));
      StructuresMatch(comps, value);
      if |comps| == 1 {
        FieldsMatch();
        StructuresMatch(ControlTypes(TYPE_FIELDS), ControlValues(VALUE_FIELDS));
        assert comps == [comps[0]];
        MatchesOne(comps[0], value[0]);
      } else if MatchesAll(comps, value) {
        MatchesSize(comps, value);
      }
    }
  }

  lemma {:induction false} WithBRMatches(fcs: seq<Text>, gs: seq<Component>, vs: seq<Data>, t: seq<Component>, v: seq<Data>)
    requires |gs| == |vs| == |fcs| && |t| == |v| <= 1
    ensures MatchesAll(WithBR(fcs, gs, t), WithBR(fcs, vs, v)) <==> MatchesAll(gs, vs) && MatchesAll(t, v)
    decreases |fcs|
  {
    hide Matches;
    hide Less;
    if fcs != [] {
      if Less(BR, fcs[0]) {
        MatchesConcat(t, gs, v, vs);
      } else {
        WithBRMatches(fcs[1..], gs[1..], vs[1..], t, v);
        MatchesConcat([gs[0]], WithBR(fcs[1..], gs[1..], t), [vs[0]], WithBR(fcs[1..], vs[1..], v));
        MatchesConcat([gs[0]], gs[1..], [vs[0]], vs[1..]);
        assert gs == [gs[0]] + gs[1..] && vs == [vs[0]] + vs[1..];
      }
    }
  }

  // ---- Rows against objects ----

  function Dedupe(names: seq<Text>, seen: seq<Text>): seq<Text> {
    if names == [] then seen else Dedupe(names[1..], Noted(seen, names[0]))
  }

  lemma {:induction false} DedupeDistinct(names: seq<Text>, seen: seq<Text>)
    requires Distinct(seen)
    ensures Distinct(Dedupe(names, seen))
    ensures |Dedupe(names, seen)| <= |seen| + |names|
    ensures Distinct(seen + names) ==> Dedupe(names, seen) == seen + names
    ensures !Distinct(seen + names) ==> |Dedupe(names, seen)| < |seen| + |names|
    decreases |names|
  {
    if names == [] {
      assert seen + names == seen;
    } else {
      DedupeDistinct(names[1..], Noted(seen, names[0]));
      assert seen + [names[0]] + names[1..] == seen + names;
      if names[0] in seen {
        var i :| 0 <= i < |seen| && seen[i] == names[0];
        assert (seen + names)[i] == (seen + names)[|seen|];
      }
    }
  }

  function NamesOf(nodes: seq<Node>, which: seq<nat>): (r: seq<Text>)
    requires Indices(which, nodes)
    ensures |r| == |which| && forall j :: 0 <= j < |r| ==> r[j] == nodes[which[j]].name
  {
    if which == [] then [] else [nodes[which[0]].name] + NamesOf(nodes, which[1..])
  }

  lemma {:induction false} RowNamesConcat(a: seq<Row>, b: seq<Row>, fc: Text, seen: seq<Text>)
    ensures RowNames(a + b, fc, seen) == RowNames(b, fc, RowNames(a, fc, seen))
    decreases |a|
  {
    hide OfFC;
    if a == [] {
      assert a + b == b;
    } else {
      assert (a + b)[1..] == a[1..] + b;
      RowNamesConcat(a[1..], b, fc, if OfFC(a[0].da, fc) then Noted(seen, a[0].name) else seen);
    }
  }

  lemma {:induction false} ObjectRowNames(name: Text, attributes: seq<Node>, fc: Text, seen: seq<Text>)
    ensures RowNames(ObjectRows(name, attributes), fc, seen)
         == if OfConstraint(attributes, fc) == [] then seen else Noted(seen, name)
    decreases |attributes|
  {
    if attributes != [] {
      ObjectRowNames(name, attributes[1..], fc, seen);
      ObjectRowNames(name, attributes[1..], fc, Noted(seen, name));
      var tail := ObjectRows(name, attributes[1..]);
      if attributes[0].kind.DataAttribute? {
        assert ([Row(name, attributes[0])] + tail)[1..] == tail;
      } else {
        assert ObjectRows(name, attributes) == tail;
      }
    }
  }

  lemma {:induction false} HasFCMeansSome(attributes: seq<Node>, fc: Text)
    ensures OfConstraint(attributes, fc) != [] <==> exists i :: 0 <= i < |attributes| && OfFC(attributes[i], fc)
  {
    hide OfFC;
    if attributes != [] {
      HasFCMeansSome(attributes[1..], fc);
      if i :| 0 < i < |attributes| && OfFC(attributes[i], fc) {
        assert attributes[1..][i - 1] == attributes[i];
      }
      if i :| 0 <= i < |attributes[1..]| && OfFC(attributes[1..][i], fc) {
        assert attributes[1..][i] == attributes[i + 1];
      }
    }
  }

  lemma HasFCIsSome(n: Node, fc: Text)
    ensures HasFC(n, fc) <==> OfConstraint(n.children, fc) != []
  {
    HasFCMeansSome(n.children, fc);
  }

  lemma NothingWith(nodes: seq<Node>, fc: Text, seen: seq<Text>)
    ensures forall k :: k >= |nodes| ==> ObjectsWith(nodes, fc, k) == []
    ensures RowNames([], fc, seen) == seen
  {
  }

  lemma {:induction false} RowNamesAreObjectNames(nodes: seq<Node>, fc: Text, k: nat, seen: seq<Text>)
    ensures RowNames(Rows(nodes, k), fc, seen) == Dedupe(NamesOf(nodes, ObjectsWith(nodes, fc, k)), seen)
    decreases |nodes| - k
  {
    hide OfConstraint;
    hide HasFC;
    hide RowNames;
    hide ObjectRows;
    hide ObjectsWith;
    NothingWith(nodes, fc, seen);
    if k < |nodes| {
      var n := nodes[k];
      var has := n.kind.DataObject? && HasFC(n, fc);
      var seen' := if has then Noted(seen, n.name) else seen;
      ObjectsWithNext(nodes, fc, k);
      RowNamesAreObjectNames(nodes, fc, k + 1, seen');
      HasFCIsSome(n, fc);
      if n.kind.DataObject? {
        RowNamesConcat(ObjectRows(n.name, n.children), Rows(nodes, k + 1), fc, seen);
        ObjectRowNames(n.name, n.children, fc, seen);
      } else {
        assert Rows(nodes, k) == Rows(nodes, k + 1);
      }
      var later := ObjectsWith(nodes, fc, k + 1);
      if has {
        assert ([k] + later)[1..] == later;
        assert ([n.name] + NamesOf(nodes, later))[1..] == NamesOf(nodes, later);
      } else {
        assert [] + later == later;
      }
    }
  }

  lemma {:induction false} RowDAsConcat(a: seq<Row>, b: seq<Row>, name: Text, fc: Text)
    ensures RowDAs(a + b, name, fc) == RowDAs(a, name, fc) + RowDAs(b, name, fc)
    decreases |a|
  {
    hide OfFC;
    if a == [] {
      assert a + b == b;
    } else {
      assert (a + b)[1..] == a[1..] + b;
      RowDAsConcat(a[1..], b, name, fc);
    }
  }

  lemma {:induction false} ObjectRowDAs(name: Text, attributes: seq<Node>, wanted: Text, fc: Text)
    ensures RowDAs(ObjectRows(name, attributes), wanted, fc) == if name == wanted then OfConstraint(attributes, fc) else []
    decreases |attributes|
  {
    if attributes != [] {
      ObjectRowDAs(name, attributes[1..], wanted, fc);
      var tail := ObjectRows(name, attributes[1..]);
      if attributes[0].kind.DataAttribute? {
        assert ([Row(name, attributes[0])] + tail)[1..] == tail;
      } else {
        assert ObjectRows(name, attributes) == tail;
      }
    }
  }

  lemma RowsNext(nodes: seq<Node>, k: nat)
    requires k < |nodes|
    ensures Rows(nodes, k)
         == if nodes[k].kind.DataObject? then ObjectRows(nodes[k].name, nodes[k].children) + Rows(nodes, k + 1)
            else Rows(nodes, k + 1)
  {
  }

  /** What one child of the logical node adds under a name. */
  lemma RowDAsNext(nodes: seq<Node>, fc: Text, k: nat, name: Text)
    requires k < |nodes|
    ensures RowDAs(Rows(nodes, k), name, fc)
         == (if nodes[k].kind.DataObject? && HasFC(nodes[k], fc) && nodes[k].name == name
             then OfConstraint(nodes[k].children, fc) else [])
            + RowDAs(Rows(nodes, k + 1), name, fc)
  {
    hide OfConstraint;
    hide HasFC;
    hide RowDAs;
    hide ObjectRows;
    hide Rows;
    HasFCIsSome(nodes[k], fc);
    RowsNext(nodes, k);
    if nodes[k].kind.DataObject? {
      RowDAsConcat(ObjectRows(nodes[k].name, nodes[k].children), Rows(nodes, k + 1), name, fc);
      ObjectRowDAs(nodes[k].name, nodes[k].children, name, fc);
    }
  }

  /** The only object of that name and constraint contributes all the attributes the type walk filed under them. */
  lemma {:induction false} RowDAsOfObject(nodes: seq<Node>, fc: Text, k: nat, j: nat)
    requires Distinct(NamesOf(nodes, ObjectsWith(nodes, fc, k))) && j < |ObjectsWith(nodes, fc, k)|
    ensures var i := ObjectsWith(nodes, fc, k)[j];
            RowDAs(Rows(nodes, k), nodes[i].name, fc) == OfConstraint(nodes[i].children, fc)
    decreases |nodes| - k
  {
    hide HasFC;
    hide OfConstraint;
    hide RowDAs;
    hide Rows;
    hide ObjectsWith;
    hide NamesOf;
    NothingWith(nodes, fc, []);
    var n := nodes[k];
    var which, later := ObjectsWith(nodes, fc, k), ObjectsWith(nodes, fc, k + 1);
    var names := NamesOf(nodes, which);
    ObjectsWithNext(nodes, fc, k);
    RowDAsNext(nodes, fc, k, nodes[which[j]].name);
    if n.kind.DataObject? && HasFC(n, fc) {
      assert which[1..] == later;
      assert NamesOf(nodes, later) == names[1..];
      TailDistinct(names);
      if j == 0 {
        forall i | 0 <= i < |later| ensures nodes[later[i]].name != n.name {
          assert names[0] != names[i + 1];
        }
        RowDAsAbsent(nodes, fc, k + 1, n.name);
      } else {
        assert names[0] != names[j];
        RowDAsOfObject(nodes, fc, k + 1, j - 1);
      }
    } else {
      assert which == later;
      RowDAsOfObject(nodes, fc, k + 1, j);
    }
  }

  lemma TailDistinct(names: seq<Text>)
    requires Distinct(names) && names != []
    ensures Distinct(names[1..])
  {
  }

  lemma {:induction false} RowDAsAbsent(nodes: seq<Node>, fc: Text, k: nat, name: Text)
    requires forall i :: 0 <= i < |ObjectsWith(nodes, fc, k)| ==> nodes[ObjectsWith(nodes, fc, k)[i]].name != name
    ensures RowDAs(Rows(nodes, k), name, fc) == []
    decreases |nodes| - k
  {
    hide HasFC;
    hide OfConstraint;
    if k < |nodes| {
      RowDAsNext(nodes, fc, k, name);
      ObjectsWithNext(nodes, fc, k);
      var which, later := ObjectsWith(nodes, fc, k), ObjectsWith(nodes, fc, k + 1);
      assert nodes[k].kind.DataObject? && HasFC(nodes[k], fc) ==> which[0] == k && which[1..] == later;
      forall i | 0 <= i < |later| ensures nodes[later[i]].name != name {
        assert later[i] == which[i + |which| - |later|];
      }
      RowDAsAbsent(nodes, fc, k + 1, name);
    }
  }

  // ---- Sorting objects by name sorts their names ----

  lemma {:induction false} InsertObjectNames(nodes: seq<Node>, i: nat, which: seq<nat>)
    requires i < |nodes| && Indices(which, nodes)
    ensures NamesOf(nodes, InsertObject(nodes, i, which)) == Insert(nodes[i].name, NamesOf(nodes, which))
    ensures multiset(InsertObject(nodes, i, which)) == multiset(which) + multiset{i}
    decreases |which|
  {
    hide Less;
    if which != [] && Less(nodes[which[0]].name, nodes[i].name) {
      InsertObjectNames(nodes, i, which[1..]);
      assert which == [which[0]] + which[1..];
      assert NamesOf(nodes, which)[1..] == NamesOf(nodes, which[1..]);
      assert InsertObject(nodes, i, which)[1..] == InsertObject(nodes, i, which[1..]);
    } else {
      assert ([i] + which)[1..] == which;
    }
  }

  lemma {:induction false} SortObjectsNames(nodes: seq<Node>, which: seq<nat>)
    requires Indices(which, nodes)
    ensures NamesOf(nodes, SortObjects(nodes, which)) == Sort(NamesOf(nodes, which))
    ensures multiset(SortObjects(nodes, which)) == multiset(which)
    decreases |which|
  {
    hide Insert;
    hide InsertObject;
    if which != [] {
      SortObjectsNames(nodes, which[1..]);
      assert which == [which[0]] + which[1..];
      assert NamesOf(nodes, which)[1..] == NamesOf(nodes, which[1..]);
      InsertObjectNames(nodes, which[0], SortObjects(nodes, which[1..]));
    }
  }

  // ---- One constraint ----

  predicate ObjectRegular(nodes: seq<Node>, fc: Text, i: nat) {
    i < |nodes| && RegularAll(OfConstraint(nodes[i].children, fc))
  }

  predicate AllRegular(nodes: seq<Node>, fc: Text, which: seq<nat>) {
    forall j :: 0 <= j < |which| ==> ObjectRegular(nodes, fc, which[j])
  }

  /** The type walk filed the attributes of each of these objects under its name. */
  predicate Filed(rows: seq<Row>, nodes: seq<Node>, fc: Text, which: seq<nat>)
    requires Indices(which, nodes)
  {
    forall j :: 0 <= j < |which| ==> RowDAs(rows, nodes[which[j]].name, fc) == OfConstraint(nodes[which[j]].children, fc)
  }

  lemma {:induction false} ObjectsMatch(rows: seq<Row>, nodes: seq<Node>, fc: Text, which: seq<nat>)
    requires Indices(which, nodes) && Filed(rows, nodes, fc, which)
    ensures MatchesAll(ObjectSpecs(rows, fc, NamesOf(nodes, which)), ObjectsData(nodes, fc, which))
       <==> AllRegular(nodes, fc, which)
    decreases |which|
  {
    hide RowDAs;
    hide OfConstraint;
    hide RegularAll;
    if which != [] {
      var das := OfConstraint(nodes[which[0]].children, fc);
      ObjectsMatch(rows, nodes, fc, which[1..]);
      AttributesMatch(das);
      assert RowDAs(rows, nodes[which[0]].name, fc) == das;
      var t := Component(nodes[which[0]].name, StructureType(AttributeSpecs(das)));
      var v := StructureOf(AttributesData(das));
      var ts, vs := ObjectSpecs(rows, fc, NamesOf(nodes, which[1..])), ObjectsData(nodes, fc, which[1..]);
      assert ObjectSpecs(rows, fc, NamesOf(nodes, which)) == [t] + ts by {
        assert NamesOf(nodes, which)[1..] == NamesOf(nodes, which[1..]);
      }
      MatchesConcat([t], ts, [v], vs);
      MatchesOne(t, v);
      AllRegularNext(nodes, fc, which);
    }
  }

  lemma AllRegularNext(nodes: seq<Node>, fc: Text, which: seq<nat>)
    requires which != []
    ensures AllRegular(nodes, fc, which) <==> ObjectRegular(nodes, fc, which[0]) && AllRegular(nodes, fc, which[1..])
  {
    hide ObjectRegular;
    if AllRegular(nodes, fc, which[1..]) && ObjectRegular(nodes, fc, which[0]) {
      forall j | 0 <= j < |which| ensures ObjectRegular(nodes, fc, which[j]) {
        assert j > 0 ==> which[j] == which[1..][j - 1];
      }
    }
  }

  lemma SameMembers(a: seq<nat>, b: seq<nat>, x: nat)
    requires multiset(a) == multiset(b)
    ensures x in a <==> x in b
  {
    assert x in multiset(a) <==> x in a;
    assert x in multiset(b) <==> x in b;
  }

  lemma ReorderedObjects(rows: seq<Row>, nodes: seq<Node>, fc: Text, a: seq<nat>, b: seq<nat>)
    requires multiset(a) == multiset(b) && Indices(a, nodes) && Indices(b, nodes)
    ensures Filed(rows, nodes, fc, a) ==> Filed(rows, nodes, fc, b)
    ensures AllRegular(nodes, fc, a) ==> AllRegular(nodes, fc, b)
  {
    hide RowDAs;
    hide OfConstraint;
    hide RegularAll;
    forall j | 0 <= j < |b| ensures exists i :: 0 <= i < |a| && a[i] == b[j] {
      SameMembers(a, b, b[j]);
    }
  }

  /** No two objects share a name under this constraint, and none of their attributes of it is irregular. */
  predicate GroupAligned(nodes: seq<Node>, fc: Text) {
    Distinct(NamesOf(nodes, ObjectsWith(nodes, fc, 0))) && AllRegular(nodes, fc, ObjectsWith(nodes, fc, 0))
  }

  lemma {:induction false} ObjectSpecsSize(rows: seq<Row>, fc: Text, names: seq<Text>)
    ensures |ObjectSpecs(rows, fc, names)| == |names|
  {
    hide AttributeSpecs;
    if names != [] {
      ObjectSpecsSize(rows, fc, names[1..]);
    }
  }

  lemma {:induction false} ObjectsDataSize(nodes: seq<Node>, fc: Text, which: seq<nat>)
    requires Indices(which, nodes)
    ensures |ObjectsData(nodes, fc, which)| == |which|
  {
    hide AttributesData;
    if which != [] {
      ObjectsDataSize(nodes, fc, which[1..]);
    }
  }

  lemma GroupMatches(nodes: seq<Node>, fc: Text)
    ensures Matches(GroupSpec(Rows(nodes, 0), fc).spec, GroupData(nodes, fc)) <==> GroupAligned(nodes, fc)
  {
    hide ObjectSpecs;
    hide ObjectsData;
    hide Rows;
    hide RowNames;
    hide NamesOf;
    hide ObjectsWith;
    hide SortObjects;
    hide Sort;
    hide Dedupe;
    hide Distinct;
    hide MatchesAll;
    hide AllRegular;
    hide Filed;
    var rows, which := Rows(nodes, 0), ObjectsWith(nodes, fc, 0);
    var names, sorted := NamesOf(nodes, which), SortObjects(nodes, which);
    var unique := Dedupe(names, []);
    RowNamesAreObjectNames(nodes, fc, 0, []);
    assert [] + names == names;
    NothingTwice();
    DedupeDistinct(names, []);
    SortObjectsNames(nodes, which);
    var t, v := ObjectSpecs(rows, fc, Sort(unique)), ObjectsData(nodes, fc, sorted);
    assert Matches(StructureType(t), StructureOf(v)) <==> MatchesAll(t, v);
    if Distinct(names) {
      ObjectsFiled(nodes, fc);
      ReorderedObjects(rows, nodes, fc, which, sorted);
      ReorderedObjects(rows, nodes, fc, sorted, which);
      ObjectsMatch(rows, nodes, fc, sorted);
    } else if MatchesAll(t, v) {
      SortSorts(unique);
      assert |Sort(unique)| == |multiset(Sort(unique))| == |unique|;
      assert |sorted| == |multiset(sorted)| == |which|;
      ObjectSpecsSize(rows, fc, Sort(unique));
      ObjectsDataSize(nodes, fc, sorted);
      MatchesSize(t, v);
    }
  }

  lemma NothingTwice()
    ensures Distinct<Text>([])
  {
  }

  lemma ObjectsFiled(nodes: seq<Node>, fc: Text)
    requires Distinct(NamesOf(nodes, ObjectsWith(nodes, fc, 0)))
    ensures Filed(Rows(nodes, 0), nodes, fc, ObjectsWith(nodes, fc, 0))
  {
    hide RowDAs;
    hide OfConstraint;
    hide NamesOf;
    hide Rows;
    var which := ObjectsWith(nodes, fc, 0);
    forall j | 0 <= j < |which|
      ensures RowDAs(Rows(nodes, 0), nodes[which[j]].name, fc) == OfConstraint(nodes[which[j]].children, fc)
    {
      RowDAsOfObject(nodes, fc, 0, j);
    }
  }

  // ---- The whole logical node ----

  lemma {:induction false} RowFCsConcat(a: seq<Row>, b: seq<Row>, seen: seq<Text>)
    ensures RowFCs(a + b, seen) == RowFCs(b, RowFCs(a, seen))
    decreases |a|
  {
    if a == [] {
      assert a + b == b;
    } else {
      assert (a + b)[1..] == a[1..] + b;
      RowFCsConcat(a[1..], b, if a[0].da.kind.DataAttribute? then Noted(seen, a[0].da.kind.fc) else seen);
    }
  }

  lemma {:induction false} ObjectRowFCs(name: Text, attributes: seq<Node>, seen: seq<FCName>)
    ensures RowFCs(ObjectRows(name, attributes), seen) == ObjectFCs(attributes, seen)
    decreases |attributes|
  {
    if attributes != [] {
      var k := attributes[0].kind;
      ObjectRowFCs(name, attributes[1..], if k.DataAttribute? && k.fc !in seen then seen + [k.fc] else seen);
      var tail := ObjectRows(name, attributes[1..]);
      if k.DataAttribute? {
        assert ([Row(name, attributes[0])] + tail)[1..] == tail;
      } else {
        assert ObjectRows(name, attributes) == tail;
      }
    }
  }

  /** Both walks meet the same constraints, here even in the same order. */
  lemma {:induction false} SameFCs(nodes: seq<Node>, k: nat, seen: seq<FCName>)
    requires k <= |nodes|
    ensures RowFCs(Rows(nodes, k), seen) == NodeFCs(nodes[k..], seen)
    decreases |nodes| - k
  {
    hide ObjectFCs;
    hide ObjectRows;
    if k < |nodes| {
      var n := nodes[k];
      assert nodes[k..][0] == n && nodes[k..][1..] == nodes[k + 1..];
      if n.kind.DataObject? {
        RowFCsConcat(ObjectRows(n.name, n.children), Rows(nodes, k + 1), seen);
        ObjectRowFCs(n.name, n.children, seen);
        SameFCs(nodes, k + 1, ObjectFCs(n.children, seen));
      } else {
        assert Rows(nodes, k) == Rows(nodes, k + 1);
        SameFCs(nodes, k + 1, seen);
      }
    }
  }

  predicate AllAligned(nodes: seq<Node>, fcs: seq<Text>) {
    forall fc :: fc in fcs ==> GroupAligned(nodes, fc)
  }

  lemma {:induction false} GroupsMatch(nodes: seq<Node>, fcs: seq<Text>)
    ensures MatchesAll(GroupSpecs(Rows(nodes, 0), fcs), GroupsData(nodes, fcs)) <==> AllAligned(nodes, fcs)
    decreases |fcs|
  {
    hide Matches;
    hide GroupSpec;
    hide GroupData;
    hide GroupAligned;
    hide Rows;
    if fcs != [] {
      GroupMatches(nodes, fcs[0]);
      GroupsMatch(nodes, fcs[1..]);
      var rows := Rows(nodes, 0);
      MatchesConcat([GroupSpec(rows, fcs[0])], GroupSpecs(rows, fcs[1..]), [GroupData(nodes, fcs[0])], GroupsData(nodes, fcs[1..]));
      MatchesOne(GroupSpec(rows, fcs[0]), GroupData(nodes, fcs[0]));
      assert forall fc :: fc in fcs <==> fc == fcs[0] || fc in fcs[1..];
    }
  }

  /**
   * The type a client is told and the value it reads have the same shape, order and attributes if and only if
   * under each constraint the objects have distinct names and no constructed array attribute, and the node has
   * at most one buffered control block.
   */
  lemma WalksAgreeExactly(ln: Node, rcbs: seq<RCB>, ldInst: Text)
    ensures Matches(NodeSpec(ln, rcbs, ldInst), NodeData(ln, rcbs, ldInst))
       <==> AllAligned(ln.children, NodeFCs(ln.children, [])) && ControlCount(rcbs, ldInst, ln.name) <= 1
  {
    hide GroupSpecs;
    hide GroupsData;
    hide Rows;
    hide RowFCs;
    hide NodeFCs;
    hide Sort;
    hide WithBR;
    hide ControlGroupSpec;
    hide ControlGroupData;
    hide MatchesAll;
    hide GroupAligned;
    hide ControlCount;
    var nodes, rows := ln.children, Rows(ln.children, 0);
    var fcs := NodeFCs(nodes, []);
    assert nodes[0..] == nodes;
    SameFCs(nodes, 0, []);
    NodeFCsMembers(nodes, []);
    SortDistinct(fcs);
    var sorted := Sort(fcs);
    GroupsMatch(nodes, sorted);
    ControlGroupMatches(rcbs, ldInst, ln.name);
    WithBRMatches(sorted, GroupSpecs(rows, sorted), GroupsData(nodes, sorted),
                  ControlGroupSpec(rcbs, ldInst, ln.name), ControlGroupData(rcbs, ldInst, ln.name));
    assert AllAligned(nodes, sorted) <==> AllAligned(nodes, fcs);
    StructuresMatch(WithBR(sorted, GroupSpecs(rows, sorted), ControlGroupSpec(rcbs, ldInst, ln.name)),
                    WithBR(sorted, GroupsData(nodes, sorted), ControlGroupData(rcbs, ldInst, ln.name)));
  }

  lemma StructuresMatch(t: seq<Component>, v: seq<Data>)
    ensures Matches(StructureType(t), StructureOf(v)) <==> MatchesAll(t, v)
  {
  }
}
