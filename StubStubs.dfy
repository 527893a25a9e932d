/** The walk of fluentogram/stub_generator/stubs.py from the translation
    tree to the render objects of renderable.py.

    `_process_node` builds one `Class` per node: a `__call__` method when the
    node itself has a value, a method per leaf child that has a value and a
    class reference per child that has children, whose own class is built
    first and then handed to the runner's `add_knot`.  `generate_stubs`
    treats the root's children the same way, with the runner in place of the
    root's class.

    The walk is specified by `ProcessNode` and `ProcessChildren`, which
    follow the source step by step, and characterised by `ExpectedClass`:
    what one node's class holds, read off the node and its children alone. */
module StubStubs {
  import opened Wrappers
  import opened Text
  import opened StubTree
  import opened StubClasses
  import opened StubRenderable

  /** The class `_process_node` returns and the knots the runner holds afterwards. */
  datatype Output = Output(knot: Body, knots: seq<Body>)

  /** Every path of the arena is at most `h` segments long. */
  ghost predicate Bounded(nodes: Nodes, h: nat) {
    forall p :: p in nodes ==> |p| <= h
  }

  /** All of `cs` are children present below `path`. */
  ghost predicate Present(nodes: Nodes, path: Path, cs: seq<string>) {
    forall c :: c in cs ==> path + [c] in nodes
  }

  lemma PresentChildren(nodes: Nodes, path: Path)
    requires Closed(nodes) && path in nodes
    ensures Present(nodes, path, nodes[path].children)
  {
  }

  lemma PresentTail(nodes: Nodes, path: Path, cs: seq<string>)
    requires Present(nodes, path, cs) && cs != []
    ensures path + [cs[0]] in nodes && Present(nodes, path, cs[1..])
  {
    assert cs[0] in cs;
    assert forall c :: c in cs[1..] ==> c in cs;
  }

  // ---------------------------------------------------------------------
  // The walk, step by step
  // ---------------------------------------------------------------------

  /** `Class(node.name)` with the `__call__` method of a node that has a value. */
  function NodeStart(n: TreeNode): Body {
    Body(n.name, [], if n.value.Some? then [NewInternalMethod(n.value.value, n.placeholders)] else [])
  }

  /** `_process_node(node, runner)` with the runner holding `knots`. */
  function ProcessNode(nodes: Nodes, path: Path, h: nat, knots: seq<Body>): Output
    requires Closed(nodes) && Bounded(nodes, h) && path in nodes
    decreases h - |path|, 1, 0
  {
    PresentChildren(nodes, path);
    ProcessChildren(nodes, path, nodes[path].children, h, NodeStart(nodes[path]), knots)
  }

  /** The loop of `_process_node` over the children `cs` still to visit. */
  function ProcessChildren(nodes: Nodes, path: Path, cs: seq<string>, h: nat, knot: Body, knots: seq<Body>): Output
    requires Closed(nodes) && Bounded(nodes, h) && path in nodes && Present(nodes, path, cs)
    decreases h - |path|, 0, |cs|
  {
    if cs == [] then Output(knot, knots)
    else
      PresentTail(nodes, path, cs);
      var name := cs[0];
      var sub := nodes[path + [name]];
      if IsLeaf(sub) then
        var next := if sub.value.Some? then knot.(methods := knot.methods + [NewMethod(name, sub.value.value, sub.placeholders)]) else knot;
        ProcessChildren(nodes, path, cs[1..], h, next, knots)
      else
        var out := ProcessNode(nodes, path + [name], h, knots);
        ProcessChildren(nodes, path, cs[1..], h,
                        knot.(classRefs := knot.classRefs + [NewClassRef(name, Some(out.knot.className))]),
                        out.knots + [out.knot])
  }

  /** The loop of `generate_stubs` over the root's children `cs` still to
      visit; `head` is the runner's own class part. */
  function RootChildren(nodes: Nodes, cs: seq<string>, h: nat, head: Body, knots: seq<Body>): Output
    requires Closed(nodes) && Bounded(nodes, h) && Present(nodes, [], cs)
    decreases |cs|
  {
    if cs == [] then Output(head, knots)
    else
      PresentTail(nodes, [], cs);
      assert [] + [cs[0]] == [cs[0]];
      var node := nodes[[cs[0]]];
      if IsLeaf(node) then
        var next := if node.value.Some? then head.(methods := head.methods + [NewMethod(node.name, node.value.value, node.placeholders)]) else head;
        RootChildren(nodes, cs[1..], h, next, knots)
      else
        var out := ProcessNode(nodes, [cs[0]], h, knots);
        RootChildren(nodes, cs[1..], h,
                     head.(classRefs := head.classRefs + [NewClassRef(node.name, Some(out.knot.className))]),
                     out.knots + [out.knot])
  }

  /** The runner after `generate_stubs`' loop. */
  function RootOutput(nodes: Nodes, h: nat): Output
    requires Walkable(nodes) && Bounded(nodes, h)
  {
    PresentChildren(nodes, []);
    RootChildren(nodes, nodes[[]].children, h, Body("TranslatorRunner", [], []), [])
  }

  /** `generate_stubs(tree)`. */
  function StubsText(nodes: Nodes, h: nat): string
    requires Walkable(nodes) && Bounded(nodes, h)
  {
    var out := RootOutput(nodes, h);
    "from typing import Literal\n" + RunnerText(out.knot, out.knots)
  }

  // ---------------------------------------------------------------------
  // What one class holds
  // ---------------------------------------------------------------------

  /** A class reference per child that has children of its own, in order. */
  function SubRefs(nodes: Nodes, path: Path, cs: seq<string>): seq<ClassRef>
    requires Present(nodes, path, cs)
    decreases |cs|
  {
    if cs == [] then []
    else
      PresentTail(nodes, path, cs);
      var sub := nodes[path + [cs[0]]];
      (if IsLeaf(sub) then [] else [NewClassRef(cs[0], Some(sub.name))]) + SubRefs(nodes, path, cs[1..])
  }

  /** A method per leaf child that has a value, in order. */
  function LeafMethods(nodes: Nodes, path: Path, cs: seq<string>): seq<Method>
    requires Present(nodes, path, cs)
    decreases |cs|
  {
    if cs == [] then []
    else
      PresentTail(nodes, path, cs);
      var sub := nodes[path + [cs[0]]];
      (if IsLeaf(sub) && sub.value.Some? then [NewMethod(cs[0], sub.value.value, sub.placeholders)] else [])
      + LeafMethods(nodes, path, cs[1..])
  }

  /** The class of the node at `path`: its name, a reference per child with
      children, and `__call__` (when the node has a value) before a method
      per leaf child with a value. */
  function ExpectedClass(nodes: Nodes, path: Path): Body
    requires Closed(nodes) && path in nodes
  {
    var n := nodes[path];
    PresentChildren(nodes, path);
    Body(n.name, SubRefs(nodes, path, n.children), NodeStart(n).methods + LeafMethods(nodes, path, n.children))
  }

  /** The nodes with children below the children `cs` of `path`, each
      after all of its own such descendants. */
  function Below(nodes: Nodes, path: Path, cs: seq<string>, h: nat): (r: seq<Path>)
    requires Closed(nodes) && Bounded(nodes, h) && path in nodes && Present(nodes, path, cs)
    ensures forall p :: p in r ==> p in nodes
    decreases h - |path|, |cs|
  {
    if cs == [] then []
    else
      PresentTail(nodes, path, cs);
      var q := path + [cs[0]];
      PresentChildren(nodes, q);
      (if IsLeaf(nodes[q]) then [] else Below(nodes, q, nodes[q].children, h) + [q])
      + Below(nodes, path, cs[1..], h)
  }

  function ClassesOf(nodes: Nodes, ps: seq<Path>): seq<Body>
    requires Closed(nodes) && forall p :: p in ps ==> p in nodes
    decreases |ps|
  {
    if ps == [] then [] else [ExpectedClass(nodes, ps[0])] + ClassesOf(nodes, ps[1..])
  }

  lemma {:induction false} ClassesOfConcat(nodes: Nodes, a: seq<Path>, b: seq<Path>)
    requires Closed(nodes) && (forall p :: p in a ==> p in nodes) && (forall p :: p in b ==> p in nodes)
    ensures ClassesOf(nodes, a + b) == ClassesOf(nodes, a) + ClassesOf(nodes, b)
    decreases |a|
  {
    if a == [] {
      assert a + b == b;
    } else {
      assert (a + b)[1..] == a[1..] + b;
      ClassesOfConcat(nodes, a[1..], b);
    }
  }

  // ---------------------------------------------------------------------
  // The walk builds exactly the expected classes
  // ---------------------------------------------------------------------

  /** The methods a leaf child `name` contributes: one when it has a value. */
  function LeafAdded(name: string, sub: TreeNode): seq<Method> {
    if sub.value.Some? then [NewMethod(name, sub.value.value, sub.placeholders)] else []
  }

  /** One step of the loop at a leaf child. */
  lemma ChildrenLeafStep(nodes: Nodes, path: Path, cs: seq<string>, h: nat, knot: Body, knots: seq<Body>)
    requires Closed(nodes) && Bounded(nodes, h) && path in nodes && Present(nodes, path, cs)
    requires cs != [] && path + [cs[0]] in nodes && IsLeaf(nodes[path + [cs[0]]]) && Present(nodes, path, cs[1..])
    ensures ProcessChildren(nodes, path, cs, h, knot, knots) ==
            ProcessChildren(nodes, path, cs[1..], h,
                            knot.(methods := knot.methods + LeafAdded(cs[0], nodes[path + [cs[0]]])), knots)
  {
    assert knot.methods + [] == knot.methods;
  }

  /** One step of the loop at a child with children. */
  lemma ChildrenInnerStep(nodes: Nodes, path: Path, cs: seq<string>, h: nat, knot: Body, knots: seq<Body>)
    requires Closed(nodes) && Bounded(nodes, h) && path in nodes && Present(nodes, path, cs)
    requires cs != [] && path + [cs[0]] in nodes && !IsLeaf(nodes[path + [cs[0]]]) && Present(nodes, path, cs[1..])
    ensures var out := ProcessNode(nodes, path + [cs[0]], h, knots);
            ProcessChildren(nodes, path, cs, h, knot, knots) ==
            ProcessChildren(nodes, path, cs[1..], h,
                            knot.(classRefs := knot.classRefs + [NewClassRef(cs[0], Some(out.knot.className))]),
                            out.knots + [out.knot])
  {
  }

  /** The loop never renames the class. */
  lemma {:induction false} ChildrenKeepName(nodes: Nodes, path: Path, cs: seq<string>, h: nat, knot: Body, knots: seq<Body>)
    requires Closed(nodes) && Bounded(nodes, h) && path in nodes && Present(nodes, path, cs)
    ensures ProcessChildren(nodes, path, cs, h, knot, knots).knot.className == knot.className
    decreases |cs|
  {
    if cs != [] {
      PresentTail(nodes, path, cs);
      var sub := nodes[path + [cs[0]]];
      if IsLeaf(sub) {
        ChildrenLeafStep(nodes, path, cs, h, knot, knots);
        ChildrenKeepName(nodes, path, cs[1..], h, knot.(methods := knot.methods + LeafAdded(cs[0], sub)), knots);
      } else {
        ChildrenInnerStep(nodes, path, cs, h, knot, knots);
        var out := ProcessNode(nodes, path + [cs[0]], h, knots);
        ChildrenKeepName(nodes, path, cs[1..], h,
                         knot.(classRefs := knot.classRefs + [NewClassRef(cs[0], Some(out.knot.className))]),
                         out.knots + [out.knot]);
      }
    }
  }

  /** `_process_node` names the class after the node. */
  lemma NodeName(nodes: Nodes, path: Path, h: nat, knots: seq<Body>)
    requires Closed(nodes) && Bounded(nodes, h) && path in nodes
    ensures ProcessNode(nodes, path, h, knots).knot.className == nodes[path].name
  {
    PresentChildren(nodes, path);
    ChildrenKeepName(nodes, path, nodes[path].children, h, NodeStart(nodes[path]), knots);
  }

  /** What the loop over `cs` makes of the class. */
  function KnotAfter(nodes: Nodes, path: Path, cs: seq<string>, knot: Body): Body
    requires Present(nodes, path, cs)
  {
    Body(knot.className, knot.classRefs + SubRefs(nodes, path, cs), knot.methods + LeafMethods(nodes, path, cs))
  }

  lemma LeafMethodsLeaf(nodes: Nodes, path: Path, cs: seq<string>)
    requires Present(nodes, path, cs) && cs != [] && path + [cs[0]] in nodes && IsLeaf(nodes[path + [cs[0]]])
    requires Present(nodes, path, cs[1..])
    ensures LeafMethods(nodes, path, cs) == LeafAdded(cs[0], nodes[path + [cs[0]]]) + LeafMethods(nodes, path, cs[1..])
    ensures SubRefs(nodes, path, cs) == SubRefs(nodes, path, cs[1..])
  {
  }

  lemma KnotAfterLeaf(nodes: Nodes, path: Path, cs: seq<string>, knot: Body)
    requires Present(nodes, path, cs) && cs != [] && path + [cs[0]] in nodes && IsLeaf(nodes[path + [cs[0]]])
    requires Present(nodes, path, cs[1..])
    ensures KnotAfter(nodes, path, cs, knot) ==
            KnotAfter(nodes, path, cs[1..], knot.(methods := knot.methods + LeafAdded(cs[0], nodes[path + [cs[0]]])))
  {
    LeafMethodsLeaf(nodes, path, cs);
    AppendAssoc(knot.methods, LeafAdded(cs[0], nodes[path + [cs[0]]]), LeafMethods(nodes, path, cs[1..]));
  }

  lemma KnotAfterInner(nodes: Nodes, path: Path, cs: seq<string>, knot: Body)
    requires Present(nodes, path, cs) && cs != [] && path + [cs[0]] in nodes && !IsLeaf(nodes[path + [cs[0]]])
    requires Present(nodes, path, cs[1..])
    ensures var ref := NewClassRef(cs[0], Some(nodes[path + [cs[0]]].name));
            KnotAfter(nodes, path, cs, knot) == KnotAfter(nodes, path, cs[1..], knot.(classRefs := knot.classRefs + [ref]))
  {
    var ref := NewClassRef(cs[0], Some(nodes[path + [cs[0]]].name));
    assert SubRefs(nodes, path, cs) == [ref] + SubRefs(nodes, path, cs[1..]);
    assert LeafMethods(nodes, path, cs) == LeafMethods(nodes, path, cs[1..]);
    AppendAssoc(knot.classRefs, [ref], SubRefs(nodes, path, cs[1..]));
  }

  /** The loop over `cs` appends to the class the references and methods those children call for. */
  lemma {:induction false} ChildrenKnot(nodes: Nodes, path: Path, cs: seq<string>, h: nat, knot: Body, knots: seq<Body>)
    requires Closed(nodes) && Bounded(nodes, h) && path in nodes && Present(nodes, path, cs)
    ensures ProcessChildren(nodes, path, cs, h, knot, knots).knot == KnotAfter(nodes, path, cs, knot)
    decreases |cs|
  {
    if cs == [] {
      assert knot.classRefs + [] == knot.classRefs && knot.methods + [] == knot.methods;
    } else {
      PresentTail(nodes, path, cs);
      var name := cs[0];
      var sub := nodes[path + [name]];
      if IsLeaf(sub) {
        ChildrenLeafStep(nodes, path, cs, h, knot, knots);
        KnotAfterLeaf(nodes, path, cs, knot);
        ChildrenKnot(nodes, path, cs[1..], h, knot.(methods := knot.methods + LeafAdded(name, sub)), knots);
      } else {
        ChildrenInnerStep(nodes, path, cs, h, knot, knots);
        KnotAfterInner(nodes, path, cs, knot);
        var out := ProcessNode(nodes, path + [name], h, knots);
        NodeName(nodes, path + [name], h, knots);
        var ref := NewClassRef(name, Some(sub.name));
        ChildrenKnot(nodes, path, cs[1..], h, knot.(classRefs := knot.classRefs + [ref]), out.knots + [out.knot]);
      }
    }
  }

  /** `_process_node` returns the node's expected class. */
  lemma NodeKnot(nodes: Nodes, path: Path, h: nat, knots: seq<Body>)
    requires Closed(nodes) && Bounded(nodes, h) && path in nodes
    ensures ProcessNode(nodes, path, h, knots).knot == ExpectedClass(nodes, path)
  {
    PresentChildren(nodes, path);
    ChildrenKnot(nodes, path, nodes[path].children, h, NodeStart(nodes[path]), knots);
    assert [] + SubRefs(nodes, path, nodes[path].children) == SubRefs(nodes, path, nodes[path].children);
  }

  /** The loop over `cs` appends to the knots the class of every node with
      children below them, each after its own descendants' classes. */
  lemma {:induction false} ChildrenKnots(nodes: Nodes, path: Path, cs: seq<string>, h: nat, knot: Body, knots: seq<Body>)
    requires Closed(nodes) && Bounded(nodes, h) && path in nodes && Present(nodes, path, cs)
    ensures ProcessChildren(nodes, path, cs, h, knot, knots).knots == knots + ClassesOf(nodes, Below(nodes, path, cs, h))
    decreases h - |path|, |cs|
  {
    if cs == [] {
      assert knots + [] == knots;
    } else {
      PresentTail(nodes, path, cs);
      var name := cs[0];
      var q := path + [name];
      var sub := nodes[q];
      var rest := Below(nodes, path, cs[1..], h);
      if IsLeaf(sub) {
        ChildrenLeafStep(nodes, path, cs, h, knot, knots);
        ChildrenKnots(nodes, path, cs[1..], h, knot.(methods := knot.methods + LeafAdded(name, sub)), knots);
        assert Below(nodes, path, cs, h) == [] + rest;
        assert [] + rest == rest;
      } else {
        ChildrenInnerStep(nodes, path, cs, h, knot, knots);
        PresentChildren(nodes, q);
        var out := ProcessNode(nodes, q, h, knots);
        var inner := Below(nodes, q, sub.children, h);
        NodeKnot(nodes, q, h, knots);
        ChildrenKnots(nodes, q, sub.children, h, NodeStart(sub), knots);
        assert out.knots == knots + ClassesOf(nodes, inner);
        ChildrenKnots(nodes, path, cs[1..], h,
                      knot.(classRefs := knot.classRefs + [NewClassRef(name, Some(out.knot.className))]),
                      out.knots + [out.knot]);
        assert Below(nodes, path, cs, h) == (inner + [q]) + rest;
        assert ClassesOf(nodes, [q]) == [ExpectedClass(nodes, q)];
        ClassesOfConcat(nodes, inner, [q]);
        ClassesOfConcat(nodes, inner + [q], rest);
        AppendAssoc(knots, ClassesOf(nodes, inner), [out.knot]);
        AppendAssoc(knots, ClassesOf(nodes, inner + [q]), ClassesOf(nodes, rest));
      }
    }
  }

  /** `_process_node` returns the node's expected class, and the runner
      gains the classes of the nodes with children below it. */
  lemma ProcessNodeShape(nodes: Nodes, path: Path, h: nat, knots: seq<Body>)
    requires Closed(nodes) && Bounded(nodes, h) && path in nodes
    ensures ProcessNode(nodes, path, h, knots)
         == Output(ExpectedClass(nodes, path), knots + ClassesOf(nodes, Below(nodes, path, nodes[path].children, h)))
  {
    PresentChildren(nodes, path);
    NodeKnot(nodes, path, h, knots);
    ChildrenKnots(nodes, path, nodes[path].children, h, NodeStart(nodes[path]), knots);
  }

  /** The runner's loop does at the root what `_process_node` does at any
      other node, since every node is named by its last segment. */
  lemma {:induction false} RootChildrenAsNode(nodes: Nodes, cs: seq<string>, h: nat, head: Body, knots: seq<Body>)
    requires WellFormed(nodes) && Bounded(nodes, h) && Present(nodes, [], cs)
    ensures RootChildren(nodes, cs, h, head, knots) == ProcessChildren(nodes, [], cs, h, head, knots)
    decreases |cs|
  {
    if cs != [] {
      PresentTail(nodes, [], cs);
      assert [] + [cs[0]] == [cs[0]];
      assert nodes[[cs[0]]].name == cs[0];
      var node := nodes[[cs[0]]];
      if IsLeaf(node) {
        var next := if node.value.Some? then head.(methods := head.methods + [NewMethod(node.name, node.value.value, node.placeholders)]) else head;
        RootChildrenAsNode(nodes, cs[1..], h, next, knots);
      } else {
        var out := ProcessNode(nodes, [cs[0]], h, knots);
        RootChildrenAsNode(nodes, cs[1..], h,
                           head.(classRefs := head.classRefs + [NewClassRef(node.name, Some(out.knot.className))]),
                           out.knots + [out.knot]);
      }
    }
  }

  /** After `generate_stubs`' loop the runner holds a reference per
      top-level node with children and a method per top-level leaf with a
      value, and the class of every node with children, each after its
      descendants' classes. */
  lemma RootOutputShape(nodes: Nodes, h: nat)
    requires WellFormed(nodes) && Bounded(nodes, h)
    ensures var cs := nodes[[]].children;
            RootOutput(nodes, h) ==
            Output(Body("TranslatorRunner", SubRefs(nodes, [], cs), LeafMethods(nodes, [], cs)),
                   ClassesOf(nodes, Below(nodes, [], cs, h)))
  {
    var cs := nodes[[]].children;
    PresentChildren(nodes, []);
    RootChildrenAsNode(nodes, cs, h, Body("TranslatorRunner", [], []), []);
    ChildrenKnot(nodes, [], cs, h, Body("TranslatorRunner", [], []), []);
    ChildrenKnots(nodes, [], cs, h, Body("TranslatorRunner", [], []), []);
    assert [] + SubRefs(nodes, [], cs) == SubRefs(nodes, [], cs);
    assert [] + LeafMethods(nodes, [], cs) == LeafMethods(nodes, [], cs);
    assert [] + ClassesOf(nodes, Below(nodes, [], cs, h)) == ClassesOf(nodes, Below(nodes, [], cs, h));
  }

  /** The stub file: the import line, then the runner's rendering with
      the contents `RootOutputShape` gives. */
  lemma StubsTextShape(nodes: Nodes, h: nat)
    requires WellFormed(nodes) && Bounded(nodes, h)
    ensures var cs := nodes[[]].children;
            StubsText(nodes, h) ==
              "from typing import Literal\n" +
              RunnerText(Body("TranslatorRunner", SubRefs(nodes, [], cs), LeafMethods(nodes, [], cs)),
                         ClassesOf(nodes, Below(nodes, [], cs, h)))
  {
    RootOutputShape(nodes, h);
  }

  // ---------------------------------------------------------------------
  // Consequences
  // ---------------------------------------------------------------------

  /** A node with a value and children keeps its own text as `__call__`,
      before any method of its children. */
  lemma HybridCallFirst(nodes: Nodes, path: Path, h: nat, knots: seq<Body>)
    requires Closed(nodes) && Bounded(nodes, h) && path in nodes && nodes[path].value.Some?
    ensures var m := ProcessNode(nodes, path, h, knots).knot.methods;
            |m| > 0 && m[0] == NewInternalMethod(nodes[path].value.value, nodes[path].placeholders)
  {
    ProcessNodeShape(nodes, path, h, knots);
  }

  /** A node without a value gets no `__call__` of its own: its methods are its leaf children's. */
  lemma NoValueNoCall(nodes: Nodes, path: Path, h: nat, knots: seq<Body>)
    requires Closed(nodes) && Bounded(nodes, h) && path in nodes && nodes[path].value.None?
    ensures ProcessNode(nodes, path, h, knots).knot.methods == LeafMethods(nodes, path, nodes[path].children)
  {
    ProcessNodeShape(nodes, path, h, knots);
    PresentChildren(nodes, path);
    assert [] + LeafMethods(nodes, path, nodes[path].children) == LeafMethods(nodes, path, nodes[path].children);
  }

  /** The class is named after the node's last segment only, so two nodes
      whose paths end alike get classes of the same name. */
  lemma ClassNameIsLastSegment(nodes: Nodes, p: Path, c: string, h: nat, knots: seq<Body>)
    requires WellFormed(nodes) && Bounded(nodes, h) && p + [c] in nodes
    ensures ProcessNode(nodes, p + [c], h, knots).knot.className == c
  {
    ProcessNodeShape(nodes, p + [c], h, knots);
  }

  lemma SameLastSegmentSameName(nodes: Nodes, p: Path, q: Path, c: string, h: nat)
    requires WellFormed(nodes) && Bounded(nodes, h) && p + [c] in nodes && q + [c] in nodes
    ensures ProcessNode(nodes, p + [c], h, []).knot.className == ProcessNode(nodes, q + [c], h, []).knot.className
  {
    ClassNameIsLastSegment(nodes, p, c, h, []);
    ClassNameIsLastSegment(nodes, q, c, h, []);
  }

  lemma PrefixStep(p: Path, path: Path, c: string)
    requires |p| > |path| + 1 && p[..|path| + 1] == path + [c]
    ensures p[..|path|] == path && p[|path|] == c
  {
    assert p[..|path|] == p[..|path| + 1][..|path|];
    assert p[|path|] == p[..|path| + 1][|path|];
  }

  /** Only nodes with children get a class, each below one of the children `cs` of `path`. */
  lemma {:induction false} BelowNonLeaf(nodes: Nodes, path: Path, cs: seq<string>, h: nat)
    requires Closed(nodes) && Bounded(nodes, h) && path in nodes && Present(nodes, path, cs)
    ensures forall p :: p in Below(nodes, path, cs, h) ==>
              !IsLeaf(nodes[p]) && |p| > |path| && p[..|path|] == path && p[|path|] in cs
    decreases h - |path|, |cs|
  {
    if cs != [] {
      PresentTail(nodes, path, cs);
      var q := path + [cs[0]];
      PresentChildren(nodes, q);
      BelowNonLeaf(nodes, path, cs[1..], h);
      var rest := Below(nodes, path, cs[1..], h);
      if !IsLeaf(nodes[q]) {
        var inner := Below(nodes, q, nodes[q].children, h);
        BelowNonLeaf(nodes, q, nodes[q].children, h);
        forall p | p in inner ensures p[..|path|] == path && p[|path|] == cs[0] {
          PrefixStep(p, path, cs[0]);
        }
        assert q[..|path|] == path && q[|path|] == cs[0];
        assert Below(nodes, path, cs, h) == (inner + [q]) + rest;
      } else {
        assert Below(nodes, path, cs, h) == [] + rest;
      }
      forall p | p in rest ensures p[|path|] in cs {
        assert p[|path|] in cs[1..];
      }
    }
  }

  // ---------------------------------------------------------------------
  // The imperative walk
  // ---------------------------------------------------------------------

  /** `_process_node(node, runner)` for the node at `path` of `tree`. */
  method ProcessNodeInto(tree: Tree, path: Path, runner: Runner) returns (knot: Class)
    requires tree.Valid() && path in tree.nodes
    modifies runner
    ensures fresh(knot)
    ensures Output(knot.Contents(), runner.knots) == ProcessNode(tree.nodes, path, tree.height, old(runner.knots))
    ensures runner.Head() == old(runner.Head())
    decreases tree.height - |path|, 1
  {
    ghost var nodes, h := tree.nodes, tree.height;
    var node := tree.nodes[path];
    PresentChildren(nodes, path);
    knot := new Class(node.name);
    if node.value.Some? {
      knot.AddMethod(NewInternalMethod(node.value.value, node.placeholders));
    }
    assert knot.Contents() == NodeStart(node);
    assert node.children[0..] == node.children;
    var i := 0;
    while i < |node.children|
      invariant 0 <= i <= |node.children|
      invariant fresh(knot)
      invariant runner.Head() == old(runner.Head())
      invariant Present(nodes, path, node.children[i..])
      invariant ProcessChildren(nodes, path, node.children[i..], h, knot.Contents(), runner.knots)
             == ProcessNode(nodes, path, h, old(runner.knots))
    {
      PresentTail(nodes, path, node.children[i..]);
      assert node.children[i..][1..] == node.children[i + 1..];
      ProcessChildInto(tree, path, node.children[i..], knot, runner);
      i := i + 1;
    }
  }

  /** One pass of the loop of `_process_node`, at the first child of `cs`:
      a leaf with a value becomes a method of `knot`; a child with children
      is processed first, its class handed to the runner and a reference to
      it added to `knot`. */
  method ProcessChildInto(tree: Tree, path: Path, cs: seq<string>, knot: Class, runner: Runner)
    requires tree.Valid() && path in tree.nodes && cs != [] && Present(tree.nodes, path, cs)
    modifies knot, runner
    ensures ProcessChildren(tree.nodes, path, cs[1..], tree.height, knot.Contents(), runner.knots) ==
            ProcessChildren(tree.nodes, path, cs, tree.height, old(knot.Contents()), old(runner.knots))
    ensures runner.Head() == old(runner.Head())
    decreases tree.height - |path|, 0
  {
    ghost var nodes, h := tree.nodes, tree.height;
    PresentTail(nodes, path, cs);
    var name := cs[0];
    var sub := tree.nodes[path + [name]];
    if IsLeaf(sub) {
      ChildrenLeafStep(nodes, path, cs, h, knot.Contents(), runner.knots);
      if sub.value.Some? {
        knot.AddMethod(NewMethod(name, sub.value.value, sub.placeholders));
      } else {
        assert knot.methods + [] == knot.methods;
      }
    } else {
      ChildrenInnerStep(nodes, path, cs, h, knot.Contents(), runner.knots);
      var subClass := ProcessNodeInto(tree, path + [name], runner);
      runner.AddKnot(subClass);
      knot.AddClassRef(NewClassRef(name, Some(subClass.className)));
    }
  }

  /** One pass of the loop of `generate_stubs`, at the first child of `cs`:
      a leaf with a value becomes a method of the runner; a child with
      children is processed, referenced from the runner and handed to it. */
  method RootChildInto(tree: Tree, cs: seq<string>, runner: Runner)
    requires tree.Valid() && cs != [] && Present(tree.nodes, [], cs)
    modifies runner
    ensures RootChildren(tree.nodes, cs[1..], tree.height, runner.Head(), runner.knots) ==
            RootChildren(tree.nodes, cs, tree.height, old(runner.Head()), old(runner.knots))
  {
    PresentTail(tree.nodes, [], cs);
    assert [] + [cs[0]] == [cs[0]];
    var node := tree.nodes[[cs[0]]];
    if IsLeaf(node) {
      if node.value.Some? {
        runner.AddMethod(NewMethod(node.name, node.value.value, node.placeholders));
      }
    } else {
      var knot := ProcessNodeInto(tree, [cs[0]], runner);
      runner.AddClassRef(NewClassRef(node.name, Some(knot.className)));
      runner.AddKnot(knot);
    }
  }

  /** `generate_stubs(tree)`. */
  method GenerateStubs(tree: Tree) returns (content: string)
    requires tree.Valid()
    ensures content == StubsText(tree.nodes, tree.height)
  {
    ghost var nodes, h := tree.nodes, tree.height;
    content := "from typing import Literal\n";
    var runner := new Runner([]);
    var children := tree.nodes[[]].children;
    PresentChildren(nodes, []);
    assert children[0..] == children;
    var i := 0;
    while i < |children|
      invariant 0 <= i <= |children|
      invariant fresh(runner)
      invariant Present(nodes, [], children[i..])
      invariant RootChildren(nodes, children[i..], h, runner.Head(), runner.knots) == RootOutput(nodes, h)
    {
      PresentTail(nodes, [], children[i..]);
      assert children[i..][1..] == children[i + 1..];
      RootChildInto(tree, children[i..], runner);
      i := i + 1;
    }
    var text := RenderRunner(runner);
    content := content + text;
  }
}
