/** What FindNode finds: exactness of the search, paths, and how far the cache can be trusted. */
module FindNode {
  import opened Bytes
  import opened Texts
  import opened Model

  // ---- Positions and paths ----

  /** `p` leads from `nodes` to a node, through the types the model is built of. */
  predicate Leads(nodes: seq<Node>, tier: Tier, p: Position)
    decreases |p|
  {
    p == [] || (p[0] < |nodes| && IsTier(nodes[p[0]], tier) && Leads(nodes[p[0]].children, tier.Below(), p[1..]))
  }

  /** The names met on the way. */
  function NamesAlong(nodes: seq<Node>, tier: Tier, p: Position): (names: seq<Text>)
    requires Leads(nodes, tier, p)
    ensures |names| == |p|
    decreases |p|
  {
    if p == [] then [] else [nodes[p[0]].name] + NamesAlong(nodes[p[0]].children, tier.Below(), p[1..])
  }

  /** Path of a logical node, data object or data attribute. */
  function Path(devices: seq<Node>, p: Position): Text
    requires |p| >= 2 && Leads(devices, LD, p)
  {
    var names := NamesAlong(devices, LD, p);
    names[0] + [SLASH] + Join(names[1..], DOT)
  }

  /** No step of `p` passes an earlier sibling of the same type and name. */
  predicate FirstOfName(nodes: seq<Node>, tier: Tier, p: Position)
    requires Leads(nodes, tier, p)
    decreases |p|
  {
    p == [] || (FirstNamed(nodes, tier, nodes[p[0]].name) == Some(p[0])
                && FirstOfName(nodes[p[0]].children, tier.Below(), p[1..]))
  }

  // ---- Exactness of the search ----

  /** The search finds exactly the position spelled by the parts along first children of their name. */
  lemma {:induction false} FoundExactly(nodes: seq<Node>, tier: Tier, parts: seq<Text>, p: Position)
    ensures FindBelow(nodes, tier, parts) == Some(p)
       <==> Leads(nodes, tier, p) && NamesAlong(nodes, tier, p) == parts && FirstOfName(nodes, tier, p)
    decreases |parts|
  {
    if parts == [] {
    } else if p == [] {
    } else {
      var found := FirstNamed(nodes, tier, parts[0]);
      if found.Some? {
        var i := found.value;
        FoundExactly(nodes[i].children, tier.Below(), parts[1..], p[1..]);
        assert [i] + p[1..] == p <==> i == p[0];
        var below := FindBelow(nodes[i].children, tier.Below(), parts[1..]);
        assert below.Some? ==> ([i] + below.value)[1..] == below.value;
      }
    }
  }

  /** Where the reference splits into device name and parts. */
  predicate Spells(ref: Text, names: seq<Text>) {
    |names| >= 1 && SLASH in ref && names[0] == ref[..SlashOf(ref)] && names[1..] == PartsOf(ref[SlashOf(ref) + 1..])
  }

  function SlashOf(ref: Text): (k: nat)
    requires SLASH in ref
    ensures k < |ref|
  {
    IndexOf(ref, SLASH).value
  }

  /** Find, characterised without searching. */
  lemma FindExactly(devices: seq<Node>, ref: Text, p: Position)
    ensures Find(devices, ref) == Some(p)
       <==> Leads(devices, LD, p) && Spells(ref, NamesAlong(devices, LD, p)) && FirstOfName(devices, LD, p)
  {
    if SLASH in ref {
      var k := SlashOf(ref);
      var parts := PartsOf(ref[k + 1..]);
      FoundExactly(devices, LD, [ref[..k]] + parts, p);
      assert ([ref[..k]] + parts)[1..] == parts;
      if Leads(devices, LD, p) {
        var names := NamesAlong(devices, LD, p);
        assert Spells(ref, names) <==> names == [ref[..k]] + parts by {
          assert |names| >= 1 ==> names == [names[0]] + names[1..];
        }
      }
    }
  }

  /** What is found is what was asked for: its path is the reference, with `$` read as a dot. */
  lemma FoundPath(devices: seq<Node>, ref: Text, p: Position)
    requires Find(devices, ref) == Some(p)
    ensures |p| >= 2 && Leads(devices, LD, p) && SLASH in ref
    ensures Path(devices, p) == ref[..SlashOf(ref) + 1] + Replace(ref[SlashOf(ref) + 1..], DOLLAR, DOT)
  {
    hide Find;
    FindExactly(devices, ref, p);
    var k := SlashOf(ref);
    JoinInvertsSplit(Replace(ref[k + 1..], DOLLAR, DOT), DOT);
    assert ref[..k + 1] == ref[..k] + [SLASH];
  }

  /** Names that leave a path readable: no slash in the device name, no separator in the names below. */
  predicate Readable(names: seq<Text>) {
    |names| >= 1 && SLASH !in names[0] && Free(names[1..], DOT) && Free(names[1..], DOLLAR)
  }

  lemma PathSpells(names: seq<Text>)
    requires |names| >= 2 && Readable(names)
    ensures Spells(names[0] + [SLASH] + Join(names[1..], DOT), names)
  {
    var rest := Join(names[1..], DOT);
    var ref := names[0] + [SLASH] + rest;
    IndexOfPrefix(names[0], SLASH, rest);
    assert ref[..|names[0]|] == names[0] && ref[|names[0]| + 1..] == rest;
    JoinFree(names[1..], DOT, DOLLAR);
    ReplaceAbsent(rest, DOLLAR, DOT);
    SplitInvertsJoin(names[1..], DOT);
  }

  /** A node is found under its own path if and only if no twin sibling precedes it or an ancestor. */
  lemma PathFindsNode(devices: seq<Node>, p: Position)
    requires |p| >= 2 && Leads(devices, LD, p) && Readable(NamesAlong(devices, LD, p))
    ensures Find(devices, Path(devices, p)) == Some(p) <==> FirstOfName(devices, LD, p)
  {
    hide Find;
    hide Spells;
    hide FirstOfName;
    PathSpells(NamesAlong(devices, LD, p));
    FindExactly(devices, Path(devices, p), p);
  }

  predicate DistinctNames(nodes: seq<Node>) {
    forall i, j :: 0 <= i < j < |nodes| ==> nodes[i].name != nodes[j].name
  }

  predicate DistinctSiblings(nodes: seq<Node>)
    decreases nodes
  {
    DistinctNames(nodes) && forall i :: 0 <= i < |nodes| ==> DistinctChildren(nodes[i])
  }

  predicate DistinctChildren(n: Node)
    decreases n
  {
    DistinctSiblings(n.children)
  }

  lemma {:induction false} DistinctSiblingsSuffice(nodes: seq<Node>, tier: Tier, p: Position)
    requires DistinctSiblings(nodes) && Leads(nodes, tier, p)
    ensures FirstOfName(nodes, tier, p)
    decreases |p|
  {
    if p != [] {
      assert DistinctChildren(nodes[p[0]]);
      DistinctSiblingsSuffice(nodes[p[0]].children, tier.Below(), p[1..]);
    }
  }

  // ---- Growth keeps what was found ----

  lemma {:induction false} ExtendsReflexive(nodes: seq<Node>)
    ensures Extends(nodes, nodes)
    decreases nodes
  {
    forall i | 0 <= i < |nodes| ensures Extended(nodes[i], nodes[i]) {
      ExtendsReflexive(nodes[i].children);
    }
  }

  lemma {:induction false} ExtendsTransitive(a: seq<Node>, b: seq<Node>, c: seq<Node>)
    requires Extends(a, b) && Extends(b, c)
    ensures Extends(a, c)
    decreases a
  {
    forall i | 0 <= i < |a| ensures Extended(a[i], c[i]) {
      assert Extended(a[i], b[i]) && Extended(b[i], c[i]);
      ExtendsTransitive(a[i].children, b[i].children, c[i].children);
    }
  }

  lemma {:induction false} GrownExtends(nodes: seq<Node>, at: Position, child: Node)
    ensures Extends(nodes, Grown(nodes, at, child))
    decreases |at|
  {
    ExtendsReflexive(nodes);
    if at == [] {
      forall i | 0 <= i < |nodes| ensures Extended(nodes[i], (nodes + [child])[i]) {
        assert Extended(nodes[i], nodes[i]);
      }
    } else if at[0] < |nodes| {
      GrownExtends(nodes[at[0]].children, at[1..], child);
      var grown := Grown(nodes, at, child);
      forall i | 0 <= i < |nodes| ensures Extended(nodes[i], grown[i]) {
        assert Extended(nodes[i], nodes[i]);
      }
    }
  }

  lemma {:induction false} FoundBelowStays(a: seq<Node>, b: seq<Node>, tier: Tier, parts: seq<Text>)
    requires Extends(a, b) && FindBelow(a, tier, parts).Some?
    ensures FindBelow(b, tier, parts) == FindBelow(a, tier, parts)
    decreases |parts|
  {
    if parts != [] {
      FirstNamedStays(a, b, tier, parts[0]);
      var i := FirstNamed(a, tier, parts[0]).value;
      assert Extended(a[i], b[i]);
      FoundBelowStays(a[i].children, b[i].children, tier.Below(), parts[1..]);
    }
  }

  lemma FirstNamedStays(a: seq<Node>, b: seq<Node>, tier: Tier, name: Text)
    requires Extends(a, b) && FirstNamed(a, tier, name).Some?
    ensures FirstNamed(b, tier, name) == FirstNamed(a, tier, name)
  {
    hide Extends;
    assert |a| <= |b| && forall i :: 0 <= i < |a| ==> SameHead(a[i], b[i]) by {
      SameHeads(a, b);
    }
    hide FirstNamed;
    var i := FirstNamed(a, tier, name).value;
    assert SameHead(a[i], b[i]);
    forall j | 0 <= j < i ensures !(IsTier(b[j], tier) && b[j].name == name) {
      assert SameHead(a[j], b[j]);
    }
    FirstNamedIs(b, tier, name, i);
  }

  lemma FirstNamedIs(nodes: seq<Node>, tier: Tier, name: Text, i: nat)
    requires i < |nodes| && IsTier(nodes[i], tier) && nodes[i].name == name
    requires forall j :: 0 <= j < i ==> !(IsTier(nodes[j], tier) && nodes[j].name == name)
    ensures FirstNamed(nodes, tier, name) == Some(i)
  {
    hide FirstNamed;
    hide IsTier;
  }

  predicate SameHead(m: Node, n: Node) {
    m.name == n.name && m.kind == n.kind
  }

  lemma SameHeads(a: seq<Node>, b: seq<Node>)
    requires Extends(a, b)
    ensures |a| <= |b| && forall i :: 0 <= i < |a| ==> SameHead(a[i], b[i])
  {
    forall i | 0 <= i < |a| ensures SameHead(a[i], b[i]) {
      assert Extended(a[i], b[i]);
    }
  }

  /** Growing the model never moves a node out of reach of a reference that found it. */
  lemma FoundStays(a: seq<Node>, b: seq<Node>, ref: Text)
    requires Extends(a, b) && Find(a, ref).Some?
    ensures Find(b, ref) == Find(a, ref)
  {
    var k := IndexOf(ref, SLASH).value;
    FirstNamedStays(a, b, LD, ref[..k]);
    var d := FirstNamed(a, LD, ref[..k]).value;
    assert Extended(a[d], b[d]);
    FoundBelowStays(a[d].children, b[d].children, LN, PartsOf(ref[k + 1..]));
  }

  // ---- Runs of lookups and growth ----

  datatype Step = LookUp(ref: Text) | Add(at: Position, child: Node)

  datatype State = State(devices: seq<Node>, cache: Cache)

  /** One call of FindNode or AddChild. */
  function Next(s: State, step: Step): State {
    match step
    case LookUp(ref) => s.(cache := Remembered(s.cache, s.devices, ref))
    case Add(at, child) => s.(devices := Grown(s.devices, at, child))
  }

  function Run(s: State, steps: seq<Step>): State {
    if steps == [] then s else Next(Run(s, steps[..|steps| - 1]), steps[|steps| - 1])
  }

  /** The model as it was when `ref` was first looked up, or at the end of the run if it never was. */
  function AtFirstLookUp(s: State, steps: seq<Step>, ref: Text): seq<Node> {
    if steps == [] then s.devices
    else
      var init := steps[..|steps| - 1];
      if LookUp(ref) in init then AtFirstLookUp(s, init, ref) else Run(s, steps).devices
  }

  lemma {:induction false} CacheIsFirstAnswer(devices: seq<Node>, steps: seq<Step>, ref: Text)
    ensures var s := State(devices, map[]);
            var cache := Run(s, steps).cache;
            && (ref in cache <==> LookUp(ref) in steps && SLASH in ref)
            && (ref in cache ==> cache[ref] == Find(AtFirstLookUp(s, steps, ref), ref))
    decreases |steps|
  {
    hide Find;
    hide Grown;
    if steps != [] {
      var init := steps[..|steps| - 1];
      assert steps == init + [steps[|steps| - 1]];
      CacheIsFirstAnswer(devices, init, ref);
    }
  }

  lemma {:induction false} RunExtends(s: State, steps: seq<Step>, ref: Text)
    ensures Extends(AtFirstLookUp(s, steps, ref), Run(s, steps).devices)
    decreases |steps|
  {
    hide Find;
    hide Grown;
    hide Extends;
    ExtendsReflexive(Run(s, steps).devices);
    if steps != [] {
      var init := steps[..|steps| - 1];
      RunExtends(s, init, ref);
      match steps[|steps| - 1]
      case LookUp(_) =>
      case Add(at, child) =>
        GrownExtends(Run(s, init).devices, at, child);
        ExtendsTransitive(AtFirstLookUp(s, init, ref), Run(s, init).devices, Run(s, steps).devices);
    }
  }

  /**
   * After any run, a lookup gives what the uncached search gives, unless the reference was missed
   * before it came into existence: hits never go stale, and misses stay misses.
   */
  lemma CacheRefinesSearch(devices: seq<Node>, steps: seq<Step>, ref: Text)
    ensures var s := State(devices, map[]);
            var now := Run(s, steps);
            var first := AtFirstLookUp(s, steps, ref);
            (Answer(now.cache, now.devices, ref) == Find(first, ref)
             && (Answer(now.cache, now.devices, ref) == Find(now.devices, ref)
                 <==> Find(first, ref).Some? || Find(now.devices, ref).None?))
  {
    hide Run;
    hide AtFirstLookUp;
    hide Extends;
    var s := State(devices, map[]);
    var now, first := Run(s, steps), AtFirstLookUp(s, steps, ref);
    CacheIsFirstAnswer(devices, steps, ref);
    RunExtends(s, steps, ref);
    if ref !in now.cache {
      NeverLookedUp(s, steps, ref);
    }
    if Find(first, ref).Some? {
      FoundStays(first, now.devices, ref);
    }
  }

  lemma {:induction false} NeverLookedUp(s: State, steps: seq<Step>, ref: Text)
    ensures LookUp(ref) !in steps ==> AtFirstLookUp(s, steps, ref) == Run(s, steps).devices
    ensures SLASH !in ref ==> forall nodes :: Find(nodes, ref) == None
  {
    hide Grown;
    if steps != [] {
      assert steps == steps[..|steps| - 1] + [steps[|steps| - 1]];
    }
  }

  /** On a model that no longer grows, the cache is invisible. */
  lemma {:induction false} FixedModel(devices: seq<Node>, steps: seq<Step>, ref: Text)
    requires forall step :: step in steps ==> step.LookUp?
    ensures var now := Run(State(devices, map[]), steps);
            now.devices == devices && Answer(now.cache, now.devices, ref) == Find(devices, ref)
  {
    hide Find;
    LookUpsKeepModel(State(devices, map[]), steps, ref);
    CacheRefinesSearch(devices, steps, ref);
  }

  lemma {:induction false} LookUpsKeepModel(s: State, steps: seq<Step>, ref: Text)
    requires forall step :: step in steps ==> step.LookUp?
    ensures Run(s, steps).devices == s.devices == AtFirstLookUp(s, steps, ref)
    decreases |steps|
  {
    hide Find;
    if steps != [] {
      assert steps[|steps| - 1] in steps;
      LookUpsKeepModel(s, steps[..|steps| - 1], ref);
    }
  }

  /** A miss that went stale: the device is added after it was asked for. */
  lemma MissGoesStale(ln: Node)
    requires ln.kind.LogicalNode?
    ensures var ld := Node([0x41], LogicalDevice([]), [ln.(name := [0x42])]);
            var ref := [0x41, SLASH, 0x42];
            var now := Run(State([], map[]), [LookUp(ref), Add([], ld)]);
            Answer(now.cache, now.devices, ref) == None && Find(now.devices, ref) == Some([0, 0])
  {
    var ld := Node([0x41], LogicalDevice([]), [ln.(name := [0x42])]);
    var ref := [0x41, SLASH, 0x42];
    var s := State([], map[]);
    var steps := [LookUp(ref), Add([], ld)];
    assert Run(s, steps[..1][..0]) == s;
    assert Run(s, steps[..1]) == State([], map[ref := None]);
    assert Run(s, steps) == State([ld], map[ref := None]);
    assert NamesAlong([ld], LD, [0, 0]) == [[0x41], [0x42]] by {
      assert [0, 0][1..] == [0];
    }
    PathSpells([[0x41], [0x42]]);
    assert [0x41] + [SLASH] + Join([[0x42]], DOT) == ref;
    assert [[0x41], [0x42]][1..] == [[0x42]];
    FindExactly([ld], ref, [0, 0]);
  }
}
