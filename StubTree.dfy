/** The translation tree of the current stub generator (fluentogram/stub_generator/tree.py).

    Every message key is split on a separator and walked from a root node:
    missing intermediate nodes are created without a value, and the last
    segment's node receives the message's text and placeholders.  Nodes are
    kept in an arena indexed by their path from the root (the sequence of
    segments leading to them); a node's `children` lists its child segments
    in insertion order, standing in for the Python dict of child nodes. */
module StubTree {
  import opened Wrappers
  import opened Text
  import StubParser

  type Path = seq<string>

  datatype TreeNode = TreeNode(name: string, value: Option<string>, placeholders: seq<string>, children: seq<string>)

  type Nodes = map<Path, TreeNode>

  /** `str.split` refuses an empty separator (ValueError). */
  datatype TreeError = EmptySeparator

  /** `is_leaf`: no children. */
  predicate IsLeaf(n: TreeNode) {
    n.children == []
  }

  /** `has_value`: the value is not None. */
  predicate HasValue(n: TreeNode) {
    n.value.Some?
  }

  function Parent(p: Path): Path
    requires p != []
  {
    p[..|p| - 1]
  }

  // ---------------------------------------------------------------------
  // Shape of the arena
  // ---------------------------------------------------------------------

  /** Every listed child exists. */
  ghost predicate Closed(nodes: Nodes) {
    forall p, c :: p in nodes && c in nodes[p].children ==> p + [c] in nodes
  }

  /** Every node but the root hangs under its parent. */
  ghost predicate Linked(nodes: Nodes) {
    forall p, c :: p + [c] in nodes ==> p in nodes && c in nodes[p].children
  }

  /** Every node but the root is named by the last segment of its path. */
  ghost predicate Named(nodes: Nodes) {
    forall p, c :: p + [c] in nodes ==> nodes[p + [c]].name == c
  }

  /** A node's children are keys of a dict: no segment twice. */
  ghost predicate Distinct(nodes: Nodes) {
    forall p :: p in nodes ==> NoDup(nodes[p].children)
  }

  /** What a walk down the arena relies on. */
  ghost predicate Walkable(nodes: Nodes) {
    [] in nodes && Closed(nodes) && Linked(nodes)
  }

  /** The arena describes a tree. */
  ghost predicate WellFormed(nodes: Nodes) {
    Walkable(nodes) && Named(nodes) && Distinct(nodes)
  }

  /** `n` is `old_` with, at most, more children after the ones it had. */
  predicate Grown(old_: TreeNode, n: TreeNode) {
    n.name == old_.name && n.value == old_.value && n.placeholders == old_.placeholders &&
    |old_.children| <= |n.children| && n.children[..|old_.children|] == old_.children
  }

  /** `p` is one of the non-empty prefixes of `rest`, appended to `at`. */
  predicate OnPath(p: Path, at: Path, rest: seq<string>) {
    |at| < |p| <= |at| + |rest| && p == at + rest[..|p| - |at|]
  }

  lemma SameLast(p: Path, c: string, q: Path, d: string)
    requires p + [c] == q + [d]
    ensures p == q && c == d
  {
    assert |p| == |q|;
    assert (p + [c])[..|p|] == p && (q + [d])[..|q|] == q;
    assert (p + [c])[|p|] == c;
  }

  lemma GrownSelf(n: TreeNode)
    ensures Grown(n, n)
  {
    assert n.children[..|n.children|] == n.children;
  }

  lemma GrownTrans(a: TreeNode, b: TreeNode, c: TreeNode)
    requires Grown(a, b) && Grown(b, c)
    ensures Grown(a, c)
  {
    assert c.children[..|a.children|] == c.children[..|b.children|][..|a.children|];
  }

  // ---------------------------------------------------------------------
  // Adding a child
  // ---------------------------------------------------------------------

  /** Hangs `node` below `at` under its own name, appending the name to the
      children of `at`. */
  function AddChild(nodes: Nodes, at: Path, node: TreeNode): Nodes
    requires at in nodes
  {
    nodes[at + [node.name] := node][at := nodes[at].(children := nodes[at].children + [node.name])]
  }

  lemma ChildAbsent(nodes: Nodes, at: Path, part: string)
    requires Linked(nodes) && at in nodes && part !in nodes[at].children
    ensures at + [part] !in nodes
  {
  }

  lemma AddChildClosed(nodes: Nodes, at: Path, node: TreeNode)
    requires Closed(nodes) && at in nodes && node.children == []
    ensures Closed(AddChild(nodes, at, node))
  {
    var r := AddChild(nodes, at, node);
    var child := at + [node.name];
    forall p, c | p in r && c in r[p].children ensures p + [c] in r {
      if p == at {
        if c != node.name {
          assert c in nodes[p].children;
        }
      } else if p != child {
        assert r[p] == nodes[p];
      }
    }
  }

  lemma AddChildLinked(nodes: Nodes, at: Path, node: TreeNode)
    requires Linked(nodes) && at in nodes && node.name !in nodes[at].children
    ensures Linked(AddChild(nodes, at, node))
  {
    ChildAbsent(nodes, at, node.name);
    var r := AddChild(nodes, at, node);
    var child := at + [node.name];
    forall p, c | p + [c] in r ensures p in r && c in r[p].children {
      if p + [c] == child {
        SameLast(p, c, at, node.name);
      } else {
        assert p + [c] in nodes;
        assert c in nodes[p].children;
      }
    }
  }

  lemma AddChildNamed(nodes: Nodes, at: Path, node: TreeNode)
    requires Named(nodes) && at in nodes
    ensures Named(AddChild(nodes, at, node))
  {
    var r := AddChild(nodes, at, node);
    var child := at + [node.name];
    forall p, c | p + [c] in r ensures r[p + [c]].name == c {
      if p + [c] == child {
        SameLast(p, c, at, node.name);
      } else {
        assert p + [c] in nodes;
      }
    }
  }

  lemma AddChildDistinct(nodes: Nodes, at: Path, node: TreeNode)
    requires Distinct(nodes) && at in nodes && node.name !in nodes[at].children && node.children == []
    ensures Distinct(AddChild(nodes, at, node))
  {
    var r := AddChild(nodes, at, node);
    assert r[at].children == AddUnique(nodes[at].children, node.name);
  }

  lemma AddChildWalkable(nodes: Nodes, at: Path, node: TreeNode)
    requires Walkable(nodes) && at in nodes && node.name !in nodes[at].children && node.children == []
    ensures Walkable(AddChild(nodes, at, node))
  {
    AddChildClosed(nodes, at, node);
    AddChildLinked(nodes, at, node);
  }

  lemma AddChildKeepsTree(nodes: Nodes, at: Path, node: TreeNode)
    requires WellFormed(nodes) && at in nodes && node.name !in nodes[at].children && node.children == []
    ensures WellFormed(AddChild(nodes, at, node))
  {
    AddChildWalkable(nodes, at, node);
    AddChildNamed(nodes, at, node);
    AddChildDistinct(nodes, at, node);
  }

  /** Adding a missing child changes no existing node but `at`, which gains
      the child at the end of its children. */
  lemma AddChildGrows(nodes: Nodes, at: Path, node: TreeNode)
    requires Linked(nodes) && at in nodes && node.name !in nodes[at].children
    ensures var r := AddChild(nodes, at, node);
            forall p :: p in nodes ==> p in r && Grown(nodes[p], r[p])
  {
    ChildAbsent(nodes, at, node.name);
    var r := AddChild(nodes, at, node);
    forall p | p in nodes ensures p in r && Grown(nodes[p], r[p]) {
      if p != at {
        GrownSelf(nodes[p]);
      }
    }
  }

  // ---------------------------------------------------------------------
  // The walk over all but the last segment
  // ---------------------------------------------------------------------

  /** One step of the walk in `_build_node`: go to child `part` of `at`,
      creating it without a value if it does not exist. */
  function Step(nodes: Nodes, at: Path, part: string): Nodes
    requires at in nodes
  {
    if part in nodes[at].children then nodes else AddChild(nodes, at, TreeNode(part, None, [], []))
  }

  function Walk(nodes: Nodes, at: Path, rest: seq<string>): Nodes
    requires at in nodes
    decreases |rest|
  {
    if rest == [] then nodes
    else
      var next := Step(nodes, at, rest[0]);
      if at + [rest[0]] in next then Walk(next, at + [rest[0]], rest[1..]) else next
  }

  lemma StepWalkable(nodes: Nodes, at: Path, part: string)
    requires Walkable(nodes) && at in nodes
    ensures Walkable(Step(nodes, at, part)) && at + [part] in Step(nodes, at, part)
  {
    if part !in nodes[at].children {
      AddChildWalkable(nodes, at, TreeNode(part, None, [], []));
    }
  }

  lemma StepKeepsTree(nodes: Nodes, at: Path, part: string)
    requires WellFormed(nodes) && at in nodes
    ensures WellFormed(Step(nodes, at, part)) && at + [part] in Step(nodes, at, part)
  {
    if part !in nodes[at].children {
      AddChildKeepsTree(nodes, at, TreeNode(part, None, [], []));
    }
  }

  lemma StepGrows(nodes: Nodes, at: Path, part: string)
    requires Linked(nodes) && at in nodes
    ensures var r := Step(nodes, at, part);
            forall p :: p in nodes ==> p in r && Grown(nodes[p], r[p])
  {
    if part !in nodes[at].children {
      AddChildGrows(nodes, at, TreeNode(part, None, [], []));
    } else {
      forall p | p in nodes ensures Grown(nodes[p], nodes[p]) {
        GrownSelf(nodes[p]);
      }
    }
  }

  lemma StepCreates(nodes: Nodes, at: Path, part: string)
    requires at in nodes
    ensures var r := Step(nodes, at, part);
            forall p :: p in r && p !in nodes ==> p == at + [part] && r[p].value == None && r[p].placeholders == []
  {
  }

  /** One walk step, unfolded. */
  lemma WalkUnfold(nodes: Nodes, at: Path, rest: seq<string>)
    requires Walkable(nodes) && at in nodes && rest != []
    ensures var next := Step(nodes, at, rest[0]);
            Walkable(next) && at + [rest[0]] in next && Walk(nodes, at, rest) == Walk(next, at + [rest[0]], rest[1..])
  {
    StepWalkable(nodes, at, rest[0]);
  }

  lemma {:induction false} WalkWalkable(nodes: Nodes, at: Path, rest: seq<string>)
    requires Walkable(nodes) && at in nodes
    ensures Walkable(Walk(nodes, at, rest))
    decreases |rest|
  {
    if rest != [] {
      WalkUnfold(nodes, at, rest);
      WalkWalkable(Step(nodes, at, rest[0]), at + [rest[0]], rest[1..]);
    }
  }

  lemma {:induction false} WalkKeepsTree(nodes: Nodes, at: Path, rest: seq<string>)
    requires WellFormed(nodes) && at in nodes
    ensures WellFormed(Walk(nodes, at, rest))
    decreases |rest|
  {
    if rest != [] {
      StepKeepsTree(nodes, at, rest[0]);
      WalkKeepsTree(Step(nodes, at, rest[0]), at + [rest[0]], rest[1..]);
    }
  }

  /** Every existing node grows at most. */
  lemma {:induction false} WalkGrowsAll(nodes: Nodes, at: Path, rest: seq<string>)
    requires Walkable(nodes) && at in nodes
    ensures var r := Walk(nodes, at, rest);
            forall p :: p in nodes ==> p in r && Grown(nodes[p], r[p])
    decreases |rest|
  {
    var r := Walk(nodes, at, rest);
    if rest == [] {
      forall p | p in nodes ensures Grown(nodes[p], r[p]) {
        GrownSelf(nodes[p]);
      }
    } else {
      WalkUnfold(nodes, at, rest);
      StepGrows(nodes, at, rest[0]);
      var next := Step(nodes, at, rest[0]);
      WalkGrowsAll(next, at + [rest[0]], rest[1..]);
      forall p | p in nodes ensures p in r && Grown(nodes[p], r[p]) {
        GrownTrans(nodes[p], next[p], r[p]);
      }
    }
  }

  /** Every prefix of the walked path exists afterwards. */
  lemma {:induction false} WalkReachesAll(nodes: Nodes, at: Path, rest: seq<string>)
    requires Walkable(nodes) && at in nodes
    ensures forall i :: 0 <= i <= |rest| ==> at + rest[..i] in Walk(nodes, at, rest)
    decreases |rest|
  {
    var r := Walk(nodes, at, rest);
    if rest == [] {
      assert at + rest[..0] == at;
    } else {
      var child := at + [rest[0]];
      WalkUnfold(nodes, at, rest);
      var next := Step(nodes, at, rest[0]);
      WalkReachesAll(next, child, rest[1..]);
      WalkGrowsAll(next, child, rest[1..]);
      assert at in next;
      forall i | 0 <= i <= |rest| ensures at + rest[..i] in r {
        if i == 0 {
          assert at + rest[..0] == at;
        } else {
          PrefixShift(at, rest, i);
        }
      }
    }
  }

  lemma PrefixShift(at: Path, rest: seq<string>, i: nat)
    requires 1 <= i <= |rest|
    ensures at + rest[..i] == (at + [rest[0]]) + rest[1..][..i - 1]
  {
    assert rest[..i] == [rest[0]] + rest[1..][..i - 1];
  }

  lemma OnPathFirst(at: Path, rest: seq<string>)
    requires rest != []
    ensures OnPath(at + [rest[0]], at, rest)
  {
    assert rest[..1] == [rest[0]];
  }

  lemma OnPathShift(p: Path, at: Path, rest: seq<string>)
    requires rest != [] && OnPath(p, at + [rest[0]], rest[1..])
    ensures OnPath(p, at, rest)
  {
    PrefixShift(at, rest, |p| - |at|);
  }

  /** Every node the walk creates lies on its path and has no value. */
  lemma {:induction false} WalkCreatesPrefixes(nodes: Nodes, at: Path, rest: seq<string>)
    requires Walkable(nodes) && at in nodes
    ensures var r := Walk(nodes, at, rest);
            forall p :: p in r && p !in nodes ==> r[p].value == None && r[p].placeholders == [] && OnPath(p, at, rest)
    decreases |rest|
  {
    var r := Walk(nodes, at, rest);
    if rest != [] {
      var child := at + [rest[0]];
      WalkUnfold(nodes, at, rest);
      StepCreates(nodes, at, rest[0]);
      var next := Step(nodes, at, rest[0]);
      WalkCreatesPrefixes(next, child, rest[1..]);
      WalkGrowsAll(next, child, rest[1..]);
      forall p | p in r && p !in nodes
        ensures r[p].value == None && r[p].placeholders == [] && OnPath(p, at, rest)
      {
        if p in next {
          OnPathFirst(at, rest);
          assert Grown(next[p], r[p]);
        } else {
          OnPathShift(p, at, rest);
        }
      }
    }
  }

  /** A walk leaves alone every node deeper than its path. */
  lemma {:induction false} WalkLeavesDeeper(nodes: Nodes, at: Path, rest: seq<string>, q: Path)
    requires Walkable(nodes) && at in nodes && q in nodes && |q| > |at| + |rest|
    ensures q in Walk(nodes, at, rest) && Walk(nodes, at, rest)[q] == nodes[q]
    decreases |rest|
  {
    if rest != [] {
      WalkUnfold(nodes, at, rest);
      var next := Step(nodes, at, rest[0]);
      assert next[q] == nodes[q];
      WalkLeavesDeeper(next, at + [rest[0]], rest[1..], q);
    }
  }

  // ---------------------------------------------------------------------
  // The final segment
  // ---------------------------------------------------------------------

  /** Sets the value and the placeholders of an existing node. */
  function SetValue(nodes: Nodes, q: Path, value: string, placeholders: seq<string>): Nodes
    requires q in nodes
  {
    nodes[q := nodes[q].(value := Some(value), placeholders := placeholders)]
  }

  /** The last step of `_build_node`, at the parent of the final segment:
      create the final node with the message's text and placeholders or,
      when it exists, overwrite only its value and placeholders. */
  function FinalStep(nodes: Nodes, parent: Path, final: string, value: string, placeholders: seq<string>): Nodes
    requires parent in nodes && (final in nodes[parent].children ==> parent + [final] in nodes)
  {
    if final !in nodes[parent].children then AddChild(nodes, parent, TreeNode(final, Some(value), placeholders, []))
    else SetValue(nodes, parent + [final], value, placeholders)
  }

  lemma SetValueKeepsTree(nodes: Nodes, q: Path, value: string, placeholders: seq<string>)
    requires WellFormed(nodes) && q in nodes
    ensures WellFormed(SetValue(nodes, q, value, placeholders))
  {
    var r := SetValue(nodes, q, value, placeholders);
    assert forall p :: p in r ==> p in nodes && r[p].children == nodes[p].children;
    assert Named(r) by {
      forall p, c | p + [c] in r ensures r[p + [c]].name == c {
        assert p + [c] in nodes;
      }
    }
  }

  lemma FinalStepKeepsTree(nodes: Nodes, parent: Path, final: string, value: string, placeholders: seq<string>)
    requires WellFormed(nodes) && parent in nodes
    ensures parent + [final] in nodes || final !in nodes[parent].children
    ensures var r := FinalStep(nodes, parent, final, value, placeholders);
            WellFormed(r) && parent + [final] in r &&
            r[parent + [final]].value == Some(value) && r[parent + [final]].placeholders == placeholders
  {
    if final !in nodes[parent].children {
      AddChildKeepsTree(nodes, parent, TreeNode(final, Some(value), placeholders, []));
    } else {
      SetValueKeepsTree(nodes, parent + [final], value, placeholders);
    }
  }

  /** Every node but the final one keeps its name, value and placeholders and
      at most gains children at its end; the final node keeps its children. */
  lemma FinalStepGrows(nodes: Nodes, parent: Path, final: string, value: string, placeholders: seq<string>)
    requires Walkable(nodes) && parent in nodes
    ensures parent + [final] in nodes || final !in nodes[parent].children
    ensures var r := FinalStep(nodes, parent, final, value, placeholders);
            && (forall p :: p in nodes && p != parent + [final] ==> p in r && Grown(nodes[p], r[p]))
            && (forall p :: p in r && p !in nodes ==> p == parent + [final])
            && (parent + [final] in nodes ==> r[parent + [final]].children == nodes[parent + [final]].children)
  {
    var r := FinalStep(nodes, parent, final, value, placeholders);
    if final !in nodes[parent].children {
      AddChildGrows(nodes, parent, TreeNode(final, Some(value), placeholders, []));
      ChildAbsent(nodes, parent, final);
    } else {
      forall p | p in nodes && p != parent + [final] ensures p in r && Grown(nodes[p], r[p]) {
        GrownSelf(nodes[p]);
      }
    }
  }

  // ---------------------------------------------------------------------
  // `_build_node`
  // ---------------------------------------------------------------------

  /** The walk to the parent of the last segment ends at an existing node,
      ready for the final step. */
  lemma FinalReady(nodes: Nodes, parts: seq<string>)
    requires Walkable(nodes) && parts != []
    ensures var w := Walk(nodes, [], Parent(parts));
            Walkable(w) && Parent(parts) in w && Parent(parts) + [parts[|parts| - 1]] == parts &&
            (parts[|parts| - 1] in w[Parent(parts)].children ==> parts in w)
  {
    var parent := Parent(parts);
    WalkReachesAll(nodes, [], parent);
    assert [] + parent[..|parent|] == parent;
    WalkWalkable(nodes, [], parent);
    assert parent + [parts[|parts| - 1]] == parts;
  }

  lemma ParentPrefix(parts: seq<string>, i: nat)
    requires i < |parts|
    ensures [] + Parent(parts)[..i] == parts[..i]
  {
  }

  /** `_build_node` on the arena (the key already split into `parts`). */
  function AfterBuildNode(nodes: Nodes, parts: seq<string>, value: string, placeholders: seq<string>): Nodes
    requires Walkable(nodes) && parts != []
  {
    FinalReady(nodes, parts);
    FinalStep(Walk(nodes, [], Parent(parts)), Parent(parts), parts[|parts| - 1], value, placeholders)
  }

  /** After `_build_node` the arena is still a tree, and the final node
      carries the message's text and placeholders under its own name. */
  lemma BuildNodeKeepsTree(nodes: Nodes, parts: seq<string>, value: string, placeholders: seq<string>)
    requires WellFormed(nodes) && parts != []
    ensures var r := AfterBuildNode(nodes, parts, value, placeholders);
            WellFormed(r) && parts in r && r[parts].value == Some(value) && r[parts].placeholders == placeholders &&
            r[parts].name == parts[|parts| - 1]
  {
    FinalReady(nodes, parts);
    WalkKeepsTree(nodes, [], Parent(parts));
    FinalStepKeepsTree(Walk(nodes, [], Parent(parts)), Parent(parts), parts[|parts| - 1], value, placeholders);
  }

  /** Every node other than the final one keeps its name, value and
      placeholders, and its children with new ones only after them. */
  lemma BuildNodeKeepsOthers(nodes: Nodes, parts: seq<string>, value: string, placeholders: seq<string>)
    requires Walkable(nodes) && parts != []
    ensures var r := AfterBuildNode(nodes, parts, value, placeholders);
            forall p :: p in nodes && p != parts ==> p in r && Grown(nodes[p], r[p])
  {
    FinalReady(nodes, parts);
    var w := Walk(nodes, [], Parent(parts));
    WalkGrowsAll(nodes, [], Parent(parts));
    FinalStepGrows(w, Parent(parts), parts[|parts| - 1], value, placeholders);
    var r := AfterBuildNode(nodes, parts, value, placeholders);
    forall p | p in nodes && p != parts ensures p in r && Grown(nodes[p], r[p]) {
      GrownTrans(nodes[p], w[p], r[p]);
    }
  }

  /** The nodes `_build_node` creates besides the final one are missing
      proper prefixes of the key's path, and they carry no value; every
      proper prefix exists afterwards. */
  lemma BuildNodeCreatesPrefixes(nodes: Nodes, parts: seq<string>, value: string, placeholders: seq<string>)
    requires Walkable(nodes) && parts != []
    ensures var r := AfterBuildNode(nodes, parts, value, placeholders);
            (forall i :: 0 <= i < |parts| ==> parts[..i] in r) &&
            (forall p :: p in r && p !in nodes && p != parts ==>
               r[p].value == None && r[p].placeholders == [] && 1 <= |p| < |parts| && p == parts[..|p|])
  {
    var parent := Parent(parts);
    FinalReady(nodes, parts);
    var w := Walk(nodes, [], parent);
    WalkReachesAll(nodes, [], parent);
    WalkCreatesPrefixes(nodes, [], parent);
    FinalStepGrows(w, parent, parts[|parts| - 1], value, placeholders);
    var r := AfterBuildNode(nodes, parts, value, placeholders);
    forall i | 0 <= i < |parts| ensures parts[..i] in r {
      ParentPrefix(parts, i);
      assert parts[..i] in w;
    }
    forall p | p in r && p !in nodes && p != parts
      ensures r[p].value == None && r[p].placeholders == [] && 1 <= |p| < |parts| && p == parts[..|p|]
    {
      assert p in w && Grown(w[p], r[p]);
      ParentPrefix(parts, |p|);
    }
  }

  /** A node that already existed at the key's path (an intermediate node of
      an earlier key) receives the value and keeps its children. */
  lemma BuildNodeKeepsChildren(nodes: Nodes, parts: seq<string>, value: string, placeholders: seq<string>)
    requires Walkable(nodes) && parts != [] && parts in nodes
    ensures var r := AfterBuildNode(nodes, parts, value, placeholders);
            parts in r && r[parts].children == nodes[parts].children
  {
    FinalReady(nodes, parts);
    WalkLeavesDeeper(nodes, [], Parent(parts), parts);
    FinalStepGrows(Walk(nodes, [], Parent(parts)), Parent(parts), parts[|parts| - 1], value, placeholders);
  }

  // ---------------------------------------------------------------------
  // The tree object
  // ---------------------------------------------------------------------

  class Tree {
    var nodes: Nodes
    /** An upper bound on the length of every path, for walks over the tree. */
    ghost var height: nat

    ghost predicate Valid()
      reads this
    {
      WellFormed(nodes) && nodes[[]].name == "root" && nodes[[]].value == None &&
      forall p :: p in nodes ==> |p| <= height
    }

    /** `TreeNode(name="root")`. */
    constructor ()
      ensures Valid()
      ensures nodes == map[[] := TreeNode("root", None, [], [])]
    {
      nodes := map[[] := TreeNode("root", None, [], [])];
      height := 0;
    }

    /** The loop of `_build_node` over all segments but the last: walks
        down from the root, creating missing nodes. */
    method Descend(parts: seq<string>) returns (current: Path)
      requires WellFormed(nodes)
      modifies this
      ensures WellFormed(nodes) && current == parts && current in nodes
      ensures nodes == Walk(old(nodes), [], parts)
      ensures height == old(height)
    {
      var walked := nodes;
      current := [];
      var i := 0;
      while i < |parts|
        invariant 0 <= i <= |parts|
        invariant nodes == old(nodes) && height == old(height)
        invariant current == parts[..i] && current in walked && Walkable(walked)
        invariant Walk(nodes, [], parts) == Walk(walked, current, parts[i..])
      {
        var part := parts[i];
        WalkUnfold(walked, current, parts[i..]);
        SliceStep(parts, i);
        if part !in walked[current].children {
          walked := AddChild(walked, current, TreeNode(part, None, [], []));
        }
        current := current + [part];
        i := i + 1;
      }
      assert parts[..i] == parts;
      WalkKeepsTree(nodes, [], parts);
      nodes := walked;
    }

    /** `_build_node`: returns the path of the final node's parent. */
    method BuildNode(key: string, message: StubParser.Message, separator: string) returns (r: Result<Path, TreeError>)
      requires Valid()
      modifies this
      ensures Valid()
      ensures separator == "" ==> r == Failure(EmptySeparator) && nodes == old(nodes)
      ensures separator != "" ==>
                var parts := Split(key, separator);
                r == Success(Parent(parts)) &&
                nodes == AfterBuildNode(old(nodes), parts, message.resultText, message.placeholders)
      ensures separator != "" ==> Holds(nodes, Split(key, separator), message)
      ensures separator != "" ==> forall p :: p in old(nodes) && p != Split(key, separator) ==> p in nodes && Grown(old(nodes)[p], nodes[p])
    {
      if separator == "" {
        return Failure(EmptySeparator);
      }
      var parts := Split(key, separator);
      var current := Insert(parts, message);
      r := Success(current);
    }

    /** `_build_node` once the key is split into `parts`. */
    method Insert(parts: seq<string>, message: StubParser.Message) returns (current: Path)
      requires Valid() && parts != []
      modifies this
      ensures Valid()
      ensures current == Parent(parts)
      ensures nodes == AfterBuildNode(old(nodes), parts, message.resultText, message.placeholders)
      ensures Holds(nodes, parts, message)
      ensures forall p :: p in old(nodes) && p != parts ==> p in nodes && Grown(old(nodes)[p], nodes[p])
    {
      ghost var start := nodes;
      FinalReady(start, parts);
      current := Descend(Parent(parts));
      Finish(current, parts[|parts| - 1], message);
      BuildNodeFacts(start, nodes, parts, message, height);
      if height < |parts| {
        height := |parts|;
      }
    }

    /** The final step of `_build_node`, at the parent `current`. */
    method Finish(current: Path, final: string, message: StubParser.Message)
      requires WellFormed(nodes) && current in nodes
      modifies this
      ensures (final in old(nodes)[current].children ==> current + [final] in old(nodes)) &&
              nodes == FinalStep(old(nodes), current, final, message.resultText, message.placeholders)
      ensures height == old(height)
    {
      FinalStepKeepsTree(nodes, current, final, message.resultText, message.placeholders);
      if final !in nodes[current].children {
        nodes := AddChild(nodes, current, TreeNode(final, Some(message.resultText), message.placeholders, []));
      } else {
        nodes := SetValue(nodes, current + [final], message.resultText, message.placeholders);
      }
    }
  }

  /** The facts `Tree.BuildNode` promises, gathered from the lemmas above. */
  lemma BuildNodeFacts(before: Nodes, after: Nodes, parts: seq<string>, m: StubParser.Message, height: nat)
    requires WellFormed(before) && parts != []
    requires before[[]].name == "root" && before[[]].value == None
    requires forall p :: p in before ==> |p| <= height
    requires after == AfterBuildNode(before, parts, m.resultText, m.placeholders)
    ensures WellFormed(after) && after[[]].name == "root" && after[[]].value == None
    ensures forall p :: p in after ==> |p| <= height || |p| <= |parts|
    ensures Holds(after, parts, m)
    ensures forall p :: p in before && p != parts ==> p in after && Grown(before[p], after[p])
  {
    BuildNodeKeepsTree(before, parts, m.resultText, m.placeholders);
    BuildNodeKeepsOthers(before, parts, m.resultText, m.placeholders);
    BuildNodeCreatesPrefixes(before, parts, m.resultText, m.placeholders);
    RootKept(before, after, parts);
    HeightBound(before, after, parts, height);
  }

  lemma SliceStep(parts: seq<string>, i: nat)
    requires i < |parts|
    ensures parts[..i + 1] == parts[..i] + [parts[i]]
    ensures parts[i..][0] == parts[i] && parts[i..][1..] == parts[i + 1..]
  {
  }

  lemma RootKept(before: Nodes, after: Nodes, parts: seq<string>)
    requires [] in before && parts != []
    requires forall p :: p in before && p != parts ==> p in after && Grown(before[p], after[p])
    ensures [] in after && after[[]].name == before[[]].name && after[[]].value == before[[]].value
  {
    assert Grown(before[[]], after[[]]);
  }

  lemma HeightBound(before: Nodes, after: Nodes, parts: seq<string>, height: nat)
    requires forall p :: p in before ==> |p| <= height
    requires forall p :: p in after && p !in before && p != parts ==> |p| < |parts|
    ensures forall p :: p in after ==> |p| <= height || |p| <= |parts|
  {
  }

  /** A catalog as Python's dict gives it: unique names, each with a message. */
  ghost predicate CatalogOk(c: StubParser.Catalog) {
    NoDup(c.names) && forall k :: k in c.messages <==> k in c.names
  }

  /** The node at `q` holds the text and placeholders of `m`. */
  predicate Holds(nodes: Nodes, q: Path, m: StubParser.Message) {
    q in nodes && nodes[q].value == Some(m.resultText) && nodes[q].placeholders == m.placeholders
  }

  lemma HoldsKept(before: Nodes, after: Nodes, parts: Path, q: Path, m: StubParser.Message)
    requires Holds(before, q, m) && q != parts
    requires forall p :: p in before && p != parts ==> p in after && Grown(before[p], after[p])
    ensures Holds(after, q, m)
  {
    assert Grown(before[q], after[q]);
  }

  /** Inserting the `i`-th key keeps the earlier keys' messages in place,
      since distinct keys split into distinct paths. */
  lemma InsertKeepsHolds(before: Nodes, after: Nodes, catalog: StubParser.Catalog, separator: string, i: nat)
    requires CatalogOk(catalog) && separator != "" && i < |catalog.names|
    requires forall j :: 0 <= j < i ==>
               Holds(before, Split(catalog.names[j], separator), catalog.messages[catalog.names[j]])
    requires Holds(after, Split(catalog.names[i], separator), catalog.messages[catalog.names[i]])
    requires forall p :: p in before && p != Split(catalog.names[i], separator) ==> p in after && Grown(before[p], after[p])
    ensures forall j :: 0 <= j < i + 1 ==>
              Holds(after, Split(catalog.names[j], separator), catalog.messages[catalog.names[j]])
  {
    var parts := Split(catalog.names[i], separator);
    forall j | 0 <= j < i + 1
      ensures Holds(after, Split(catalog.names[j], separator), catalog.messages[catalog.names[j]])
    {
      if j < i {
        var q := Split(catalog.names[j], separator);
        if q == parts {
          SplitInjective(catalog.names[j], catalog.names[i], separator);
        }
        HoldsKept(before, after, parts, q, catalog.messages[catalog.names[j]]);
      }
    }
  }

  /** `build_tree`: every message of the catalog inserted in order.  The
      separator is only used (and so only refused) when there is a message.
      Afterwards the node at each key's path holds that key's message. */
  method BuildTree(catalog: StubParser.Catalog, separator: string) returns (r: Result<Tree, TreeError>)
    requires CatalogOk(catalog)
    ensures r.Failure? <==> separator == "" && catalog.names != []
    ensures r.Success? ==> fresh(r.value) && r.value.Valid()
    ensures r.Success? ==> forall k :: k in catalog.names ==>
              Holds(r.value.nodes, Split(k, separator), catalog.messages[k])
  {
    var tree := new Tree();
    if separator == "" && catalog.names != [] {
      var _ := tree.BuildNode(catalog.names[0], catalog.messages[catalog.names[0]], separator);
      return Failure(EmptySeparator);
    }
    var i := 0;
    while i < |catalog.names|
      invariant 0 <= i <= |catalog.names|
      invariant fresh(tree) && tree.Valid()
      invariant forall j :: 0 <= j < i ==>
                  Holds(tree.nodes, Split(catalog.names[j], separator), catalog.messages[catalog.names[j]])
    {
      var key := catalog.names[i];
      var parts := Split(key, separator);
      ghost var before := tree.nodes;
      var _ := tree.BuildNode(key, catalog.messages[key], separator);
      InsertKeepsHolds(before, tree.nodes, catalog, separator, i);
      i := i + 1;
    }
    r := Success(tree);
  }
}
