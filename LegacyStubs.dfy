/** fluentogram/typing_generator/stubs.py: the legacy stub writer.

    `Stubs` walks `tree.elements` in insertion order and renders one knot
    per node that has children: the runner for the node whose path text is
    empty (the root), a `Knot` named by the path text for every other one.
    A node's value becomes `__call__`; a leaf child with a value becomes a
    method, a leaf child without one is skipped, and any other child becomes
    a variable typed by the child's path text. */
module LegacyStubs {
  import opened Wrappers
  import opened Text
  import opened Dicts
  import opened StubClasses
  import opened StubRenderable
  import opened LegacyTree
  import opened LegacyRenderable

  /** The text the content starts with. */
  const Header := "from typing import Literal\n\n    "

  /** The node registered under `p`. */
  function NodeAt(st: State, p: Path): TreeNode
    requires Valid(st) && p in st.elements.entries
  {
    st.store[st.elements.entries[p]]
  }

  /** The child registered under `name` in `n`'s children. */
  function Child(st: State, n: TreeNode, name: string): TreeNode
    requires Valid(st) && NodeOk(n, |st.store|) && name in n.children.entries
  {
    st.store[n.children.entries[name]]
  }

  /** The methods the children named `names` give: leaves with a value. */
  function ChildMethods(st: State, n: TreeNode, names: seq<string>): seq<Method>
    requires Valid(st) && NodeOk(n, |st.store|) && forall x :: x in names ==> x in n.children.entries
  {
    if names == [] then []
    else
      var name := names[|names| - 1];
      var sub := Child(st, n, name);
      ChildMethods(st, n, names[..|names| - 1])
      + if IsLeaf(sub) && sub.value != "" then [NewMethod(name, sub.value, sub.vars)] else []
  }

  /** The variables the children named `names` give: the children that are not leaves. */
  function ChildVars(st: State, n: TreeNode, names: seq<string>): seq<ClassRef>
    requires Valid(st) && NodeOk(n, |st.store|) && forall x :: x in names ==> x in n.children.entries
  {
    if names == [] then []
    else
      var name := names[|names| - 1];
      var sub := Child(st, n, name);
      ChildVars(st, n, names[..|names| - 1])
      + if IsLeaf(sub) then [] else [NewClassRef(name, Some(sub.path))]
  }

  /** The knot `_gen_stubs` fills for the node `n`. */
  function KnotOf(st: State, n: TreeNode, root: string): (b: Body)
    requires Valid(st) && NodeOk(n, |st.store|)
    ensures b.className == if n.path != "" then n.path else root
    ensures n.value != "" ==> |b.methods| > 0 && b.methods[0] == NewInternalMethod(n.value, n.vars)
    ensures n.value == "" ==> b.methods == ChildMethods(st, n, n.children.keys)
    ensures b.classRefs == ChildVars(st, n, n.children.keys)
  {
    Body(if n.path != "" then n.path else root,
         ChildVars(st, n, n.children.keys),
         (if n.value != "" then [NewInternalMethod(n.value, n.vars)] else []) + ChildMethods(st, n, n.children.keys))
  }

  /** A node's knot, and whether it renders as the runner: the root does. */
  function Block(st: State, n: TreeNode, root: string): (Body, bool)
    requires Valid(st) && NodeOk(n, |st.store|)
  {
    (KnotOf(st, n, root), n.path == "")
  }

  /** The knots `_gen_stubs` renders for the registered paths `ps`, in order. */
  function Blocks(st: State, ps: seq<Path>, root: string): seq<(Body, bool)>
    requires Valid(st) && forall p :: p in ps ==> p in st.elements.entries
  {
    if ps == [] then []
    else
      var n := NodeAt(st, ps[|ps| - 1]);
      Blocks(st, ps[..|ps| - 1], root) + if IsLeaf(n) then [] else [Block(st, n, root)]
  }

  /** The registered paths among `ps` whose node is not a leaf. */
  function Parents(st: State, ps: seq<Path>): (r: seq<Path>)
    requires Valid(st) && forall p :: p in ps ==> p in st.elements.entries
    ensures forall p :: p in r ==> p in st.elements.entries
  {
    if ps == [] then []
    else
      var p := ps[|ps| - 1];
      Parents(st, ps[..|ps| - 1]) + if IsLeaf(NodeAt(st, p)) then [] else [p]
  }

  /** The text of every knot. */
  function Rendered(bs: seq<(Body, bool)>): (r: seq<string>)
    ensures |r| == |bs|
  {
    if bs == [] then [] else Rendered(bs[..|bs| - 1]) + [KnotText(bs[|bs| - 1].0, bs[|bs| - 1].1)]
  }

  lemma RenderedSnoc(bs: seq<(Body, bool)>, b: (Body, bool))
    ensures Rendered(bs + [b]) == Rendered(bs) + [KnotText(b.0, b.1)]
  {
    assert (bs + [b])[..|bs|] == bs;
  }

  /** One more registered path. */
  lemma BlocksStep(st: State, ps: seq<Path>, i: nat, root: string)
    requires Valid(st) && (forall p :: p in ps ==> p in st.elements.entries) && i < |ps|
    ensures forall p :: p in ps[..i + 1] ==> p in st.elements.entries
    ensures forall p :: p in ps[..i] ==> p in st.elements.entries
    ensures var n := NodeAt(st, ps[i]);
            Blocks(st, ps[..i + 1], root) == Blocks(st, ps[..i], root) + if IsLeaf(n) then [] else [Block(st, n, root)]
  {
    assert ps[..i + 1][..i] == ps[..i];
  }

  /** The blocks written one after another. */
  function Concat(ss: seq<string>): string {
    if ss == [] then "" else Concat(ss[..|ss| - 1]) + ss[|ss| - 1]
  }

  /** `text += stub` for every stub, in order. */
  method AppendAll(text: string, stubs: seq<string>) returns (r: string)
    ensures r == text + Concat(stubs)
  {
    r := text;
    var i := 0;
    while i < |stubs|
      invariant 0 <= i <= |stubs|
      invariant r == text + Concat(stubs[..i])
    {
      assert stubs[..i + 1][..i] == stubs[..i];
      AppendAssoc(text, Concat(stubs[..i]), stubs[i]);
      r := r + stubs[i];
      i := i + 1;
    }
    assert stubs[..i] == stubs;
  }

  /** One pass of the loop of `_gen_stubs`, at the child numbered `j`: a
      leaf with a value becomes a method, a leaf without one adds nothing,
      any other child becomes a variable. */
  method AddChildInto(st: State, node: TreeNode, j: nat, knot: Knot, ghost calls: seq<Method>)
    requires Valid(st) && NodeOk(node, |st.store|) && j < |node.children.keys|
    requires knot.variables == ChildVars(st, node, node.children.keys[..j])
    requires knot.methods == calls + ChildMethods(st, node, node.children.keys[..j])
    modifies knot
    ensures knot.className == old(knot.className)
    ensures knot.variables == ChildVars(st, node, node.children.keys[..j + 1])
    ensures knot.methods == calls + ChildMethods(st, node, node.children.keys[..j + 1])
  {
    ChildStep(st, node, j);
    var name := node.children.keys[j];
    var sub := st.store[node.children.entries[name]];
    assert sub == Child(st, node, name);
    ghost var ms := ChildMethods(st, node, node.children.keys[..j]);
    if IsLeaf(sub) {
      if sub.value != "" {
        AppendAssoc(calls, ms, [NewMethod(name, sub.value, sub.vars)]);
        knot.AddMethod(NewMethod(name, sub.value, sub.vars));
      } else {
        AppendEmpty(calls + ms, []);
      }
    } else {
      AppendEmpty(calls + ms, []);
      knot.AddVar(NewClassRef(name, Some(sub.path)));
    }
  }

  /** The loop of `_gen_stubs` over a node's children. */
  method AddChildren(st: State, root: string, knot: Knot, node: TreeNode)
    requires Valid(st) && NodeOk(node, |st.store|)
    requires knot.className == (if node.path != "" then node.path else root) && knot.variables == []
    requires knot.methods == if node.value != "" then [NewInternalMethod(node.value, node.vars)] else []
    modifies knot
    ensures knot.Contents() == KnotOf(st, node, root)
  {
    ghost var calls := knot.methods;
    var names := node.children.keys;
    var j := 0;
    assert names[..0] == [];
    AppendEmpty(calls, ChildMethods(st, node, []));
    while j < |names|
      invariant 0 <= j <= |names|
      invariant knot.className == if node.path != "" then node.path else root
      invariant knot.variables == ChildVars(st, node, names[..j])
      invariant knot.methods == calls + ChildMethods(st, node, names[..j])
    {
      AddChildInto(st, node, j, knot, calls);
      j := j + 1;
    }
    TakeAll(names);
  }

  class Stubs {
    var root: string
    /** `self.nodes`: the tree's `elements`, with the node objects they refer to. */
    var nodes: State
    var content: string

    /** `Stubs(tree, root)`: the header, then every block `_gen_stubs` yields. */
    constructor (tree: Tree, root: string := "TranslatorRunner")
      requires Valid(tree.Contents())
      ensures this.root == root && nodes == tree.Contents()
      ensures content == Header + Concat(Rendered(Blocks(nodes, nodes.elements.keys, root)))
      ensures |content| >= |Header| && content[..|Header|] == Header
    {
      this.root := root;
      nodes := tree.Contents();
      content := Header;
      new;
      var stubs := GenStubs();
      content := AppendAll(Header, stubs);
      TakeFront(Header, Concat(stubs));
    }

    /** `_gen_stubs`: one rendered knot per element that is not a leaf. */
    method GenStubs() returns (stubs: seq<string>)
      requires Valid(nodes)
      ensures stubs == Rendered(Blocks(nodes, nodes.elements.keys, root))
    {
      var ps := nodes.elements.keys;
      stubs := [];
      var i := 0;
      while i < |ps|
        invariant 0 <= i <= |ps|
        invariant stubs == Rendered(Blocks(nodes, ps[..i], root))
      {
        BlocksStep(nodes, ps, i, root);
        ghost var done := Blocks(nodes, ps[..i], root);
        var node := nodes.store[nodes.elements.entries[ps[i]]];
        assert node == NodeAt(nodes, ps[i]);
        if !IsLeaf(node) {
          var text := RenderNode(node);
          RenderedSnoc(done, Block(nodes, node, root));
          stubs := stubs + [text];
        } else {
          assert Blocks(nodes, ps[..i + 1], root) == done + [] == done;
        }
        i := i + 1;
      }
      assert ps[..i] == ps;
    }

    /** The body of `_gen_stubs` for one node that is not a leaf. */
    method RenderNode(node: TreeNode) returns (text: string)
      requires Valid(nodes) && NodeOk(node, |nodes.store|)
      ensures text == KnotText(KnotOf(nodes, node, root), node.path == "")
    {
      var knot: Knot;
      if node.path != "" {
        knot := new Knot(node.path);
      } else {
        knot := new Knot.Runner(root);
      }
      if node.value != "" {
        knot.AddMethod(NewInternalMethod(node.value, node.vars));
      }
      AddChildren(nodes, root, knot, node);
      text := knot.Render();
    }

    /** `echo`. */
    method Echo() returns (r: string)
      ensures r == content
    {
      r := content;
    }
  }

  // ---------------------------------------------------------------------
  // Properties
  // ---------------------------------------------------------------------

  /** One block per element that is not a leaf, in the order of `elements`;
      leaves give none. */
  lemma {:induction false} BlocksPerKnot(st: State, ps: seq<Path>, root: string)
    requires Valid(st) && forall p :: p in ps ==> p in st.elements.entries
    ensures var (b, k) := (Blocks(st, ps, root), Parents(st, ps));
            |b| == |k| && forall i :: 0 <= i < |k| ==> !IsLeaf(NodeAt(st, k[i])) && b[i] == Block(st, NodeAt(st, k[i]), root)
    decreases |ps|
  {
    if ps != [] {
      var init := ps[..|ps| - 1];
      assert forall p :: p in init ==> p in ps;
      BlocksPerKnot(st, init, root);
      var n := NodeAt(st, ps[|ps| - 1]);
      var (b0, k0) := (Blocks(st, init, root), Parents(st, init));
      if IsLeaf(n) {
        assert Blocks(st, ps, root) == b0 + [];
        assert Parents(st, ps) == k0 + [];
      } else {
        var (b, k) := (Blocks(st, ps, root), Parents(st, ps));
        assert b == b0 + [Block(st, n, root)];
        assert k == k0 + [ps[|ps| - 1]];
        forall i | 0 <= i < |k0|
          ensures b[i] == b0[i] && k[i] == k0[i]
        {
        }
      }
    }
  }

  /** Leaves add no block: the elements after `pre` that are all leaves
      leave the blocks of `pre` as they are. */
  lemma {:induction false} LeavesAddNothing(st: State, pre: seq<Path>, rest: seq<Path>, root: string)
    requires Valid(st) && forall p :: p in pre + rest ==> p in st.elements.entries
    requires forall p :: p in rest ==> IsLeaf(NodeAt(st, p))
    ensures Blocks(st, pre + rest, root) == Blocks(st, pre, root)
    decreases |rest|
  {
    if rest == [] {
      AppendEmpty(pre, rest);
    } else {
      var init := rest[..|rest| - 1];
      DropLastAppend(pre, rest);
      LeavesAddNothing(st, pre, init, root);
    }
  }

  /** A tree where only the root has children renders the runner alone. */
  lemma RootOnly(st: State, rootPath: Path, rest: seq<Path>, root: string)
    requires Valid(st) && forall p :: p in [rootPath] + rest ==> p in st.elements.entries
    requires !IsLeaf(NodeAt(st, rootPath)) && NodeAt(st, rootPath).path == ""
    requires forall p :: p in rest ==> IsLeaf(NodeAt(st, p))
    ensures Blocks(st, [rootPath] + rest, root) == [(KnotOf(st, NodeAt(st, rootPath), root), true)]
  {
    LeavesAddNothing(st, [rootPath], rest, root);
    assert [rootPath][..0] == [];
  }

  /** One more child of `n`, in the order of its children. */
  lemma ChildStep(st: State, n: TreeNode, j: nat)
    requires Valid(st) && NodeOk(n, |st.store|) && j < |n.children.keys|
    ensures var name := n.children.keys[j];
            var sub := Child(st, n, name);
            var names := n.children.keys[..j + 1];
            ChildMethods(st, n, names)
              == ChildMethods(st, n, n.children.keys[..j]) + (if IsLeaf(sub) && sub.value != "" then [NewMethod(name, sub.value, sub.vars)] else [])
            && ChildVars(st, n, names)
              == ChildVars(st, n, n.children.keys[..j]) + if IsLeaf(sub) then [] else [NewClassRef(name, Some(sub.path))]
  {
    assert n.children.keys[..j + 1][..j] == n.children.keys[..j];
  }

  /** How each child counts: a leaf with a value adds a method, a leaf
      without one adds nothing, and any other child adds a variable typed by
      its path text. */
  lemma ChildRules(st: State, n: TreeNode, names: seq<string>, name: string)
    requires Valid(st) && NodeOk(n, |st.store|) && forall x :: x in names + [name] ==> x in n.children.entries
    ensures var sub := Child(st, n, name);
            var (ms, vs) := (ChildMethods(st, n, names + [name]), ChildVars(st, n, names + [name]));
            (IsLeaf(sub) && sub.value != "" ==>
               ms == ChildMethods(st, n, names) + [NewMethod(name, sub.value, sub.vars)] && vs == ChildVars(st, n, names))
            && (IsLeaf(sub) && sub.value == "" ==> ms == ChildMethods(st, n, names) && vs == ChildVars(st, n, names))
            && (!IsLeaf(sub) ==>
                  ms == ChildMethods(st, n, names) && vs == ChildVars(st, n, names) + [ClassRef(name, if sub.path != "" then sub.path else name)])
  {
    assert (names + [name])[..|names|] == names;
    assert forall x :: x in names ==> x in names + [name];
  }
}
