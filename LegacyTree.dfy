/** fluentogram/typing_generator/tree.py: the legacy message tree.

    `Tree.elements` maps a path of key segments (a tuple) to a node object,
    and every node's `children` dict maps a name to a node object; the same
    object can be reached both ways.  The model keeps that sharing with an
    arena: the node objects are the entries of `store`, and `elements` and
    `children` hold indices into it.  Updating `store[i].children` is then
    visible through every reference to `i`, as updating the object is in the
    source. */
module LegacyTree {
  import opened Wrappers
  import opened Text
  import opened Dicts
  import opened LegacyParsedFtl

  type Path = seq<string>

  /** `TreeNode(path, children, name, value, translation_vars)`; children
      hold arena indices.  `value` is never None here: `_build` always gives
      a string. */
  datatype TreeNode = TreeNode(path: string, children: Dict<string, nat>, name: string, value: string, vars: seq<string>)

  /** `is_leaf`: the children dict is empty. */
  predicate IsLeaf(n: TreeNode) {
    n.children.entries == map[]
  }

  /** With a well-formed children dict, a leaf is a node with no child names. */
  lemma IsLeafKeys(n: TreeNode)
    requires DictOk(n.children)
    ensures IsLeaf(n) <==> n.children.keys == []
  {
    if n.children.keys != [] {
      assert n.children.keys[0] in n.children.entries;
    }
  }

  // ---------------------------------------------------------------------
  // `path_to_str`
  // ---------------------------------------------------------------------

  /** `s[0].capitalize() + s[1:]`: only the first character changes. */
  function CapitalizeFirst(s: string): (r: string)
    requires s != ""
    ensures |r| == |s| && r[0] == UpperChar(s[0]) && r[1..] == s[1..]
  {
    [UpperChar(s[0])] + s[1..]
  }

  /** The non-empty segments, each with its first character upper-cased. */
  function CleanPath(path: Path): seq<string> {
    if path == [] then []
    else
      var last := path[|path| - 1];
      CleanPath(path[..|path| - 1]) + (if last == "" then [] else [CapitalizeFirst(last)])
  }

  /** `path_to_str`: the cleaned segments joined with the safe separator. */
  function PathToStr(path: Path, safe: string): string {
    Join(CleanPath(path), safe)
  }

  /** Empty segments contribute nothing, wherever they are. */
  lemma CleanPathSkipsEmpty(path: Path)
    ensures CleanPath(path + [""]) == CleanPath(path)
    ensures CleanPath([""] + path) == CleanPath(path)
  {
    assert (path + [""])[..|path|] == path;
    CleanPathFront(path);
  }

  lemma {:induction false} CleanPathFront(path: Path)
    ensures CleanPath([""] + path) == CleanPath(path)
    decreases |path|
  {
    if path != [] {
      assert ([""] + path)[..|path|] == [""] + path[..|path| - 1];
      CleanPathFront(path[..|path| - 1]);
    } else {
      assert [""] + path == [] + [""];
    }
  }

  /** A non-empty segment adds one capitalised part. */
  lemma CleanPathSnoc(path: Path, s: string)
    requires s != ""
    ensures CleanPath(path + [s]) == CleanPath(path) + [CapitalizeFirst(s)]
  {
    assert (path + [s])[..|path|] == path;
  }

  /** `path_to_str(("", "greet", "by"))` with the default safe separator is "GreetBy". */
  lemma PathToStrExample(g: string, b: string)
    requires g == "greet" && b == "by"
    ensures PathToStr(["", g, b], "") == "GreetBy"
  {
    assert ["", g, b][..2] == ["", g] && ["", g][..1] == [""] && [""][..0] == [];
    assert CleanPath([""]) == [];
    assert CleanPath(["", g]) == [CapitalizeFirst(g)];
    assert CleanPath(["", g, b]) == [CapitalizeFirst(g), CapitalizeFirst(b)];
    assert CapitalizeFirst(g) == "Greet";
    assert CapitalizeFirst(b) == "By";
    assert Join(["Greet", "By"], "") == "Greet" + "" + "By";
  }

  // ---------------------------------------------------------------------
  // `_build`, on values
  // ---------------------------------------------------------------------

  /** The node objects and `Tree.elements`. */
  datatype State = State(store: seq<TreeNode>, elements: Dict<Path, nat>)

  /** A node's children dict is well formed and refers to nodes among the first `size`. */
  predicate NodeOk(n: TreeNode, size: nat) {
    DictOk(n.children) && forall c :: c in n.children.entries ==> n.children.entries[c] < size
  }

  /** Every index refers to a node, and every dict is well formed. */
  predicate Valid(st: State) {
    DictOk(st.elements)
    && (forall p :: p in st.elements.entries ==> st.elements.entries[p] < |st.store|)
    && forall i :: 0 <= i < |st.store| ==> NodeOk(st.store[i], |st.store|)
  }

  /** No empty path is registered, and with a path all its non-empty prefixes. */
  predicate PrefixClosed(elements: Dict<Path, nat>) {
    forall p :: p in elements.entries ==> p != [] && forall j :: 1 <= j < |p| ==> p[..j] in elements.entries
  }

  /** `own_class_def`: a value gives the node its text and variables, no value "" and none. */
  function NewNode(path: Path, name: string, value: Option<Translation>, safe: string): (n: TreeNode)
    ensures n.children == Dict([], map[]) && n.name == name
    ensures value == None ==> n.value == "" && n.vars == []
    ensures value.Some? ==> n.value == value.value.text && n.vars == value.value.args
  {
    TreeNode(PathToStr(path + [name], safe), Dict([], map[]), name,
             if value.Some? then value.value.text else "",
             if value.Some? then value.value.args else [])
  }

  /** A new node object, not registered anywhere yet. */
  function Alloc(st: State, n: TreeNode): (r: State)
    requires Valid(st) && n.children == Dict([], map[])
    ensures Valid(r) && r.elements == st.elements && r.store == st.store + [n]
  {
    st.(store := st.store + [n])
  }

  /** `self.elements[path].children[name] = node`. */
  function SetChild(st: State, path: Path, name: string, node: nat): (r: State)
    requires Valid(st) && path in st.elements.entries && node < |st.store|
    ensures Valid(r) && r.elements == st.elements && |r.store| == |st.store|
  {
    var parent := st.elements.entries[path];
    var n := st.store[parent];
    st.(store := st.store[parent := n.(children := Put(n.children, name, node))])
  }

  /** `self.elements.setdefault(path, node)`. */
  function Register(st: State, path: Path, node: nat): (r: State)
    requires Valid(st) && node < |st.store|
    ensures Valid(r) && r.store == st.store && path in r.elements.entries
  {
    st.(elements := SetDefault(st.elements, path, node))
  }

  /** The first segments of a non-empty path. */
  function Up(path: Path): (r: Path)
    requires path != []
    ensures r + [path[|path| - 1]] == path && |r| < |path|
  {
    path[..|path| - 1]
  }

  /** The state after `_build(path, name, value)`. */
  function AfterBuild(st: State, path: Path, name: string, value: Option<Translation>, safe: string): (r: State)
    requires Valid(st)
    ensures Valid(r) && path + [name] in r.elements.entries && |r.store| > |st.store|
    decreases |path|, 1
  {
    var st1 := Alloc(st, NewNode(path, name, value, safe));
    var st2 := BuildParent(st1, path, safe);
    Register(if path != [] then SetChild(st2, path, name, |st.store|) else st2, path + [name], |st.store|)
  }

  /** `if path not in self.elements: self._build(path[:-1], path[-1])`. */
  function BuildParent(st: State, path: Path, safe: string): (r: State)
    requires Valid(st)
    ensures Valid(r) && |r.store| >= |st.store| && (path != [] ==> path in r.elements.entries)
    decreases |path|, 0
  {
    if path != [] && path !in st.elements.entries then AfterBuild(st, Up(path), path[|path| - 1], None, safe)
    else st
  }

  // ---------------------------------------------------------------------
  // `Tree`
  // ---------------------------------------------------------------------

  /** `*point_path, name = path.split("-")` with "" put in front: the path of the parent. */
  function KeyPath(key: string): Path {
    var parts := Split(key, "-");
    [""] + parts[..|parts| - 1]
  }

  /** The last segment of the key. */
  function KeyLeaf(key: string): string {
    var parts := Split(key, "-");
    parts[|parts| - 1]
  }

  /** The path under which a key's own node is registered. */
  function FullPath(key: string): (p: Path)
    ensures p == KeyPath(key) + [KeyLeaf(key)] && |p| >= 2 && p[0] == ""
  {
    var parts := Split(key, "-");
    assert parts[..|parts| - 1] + [parts[|parts| - 1]] == parts;
    [""] + Split(key, "-")
  }

  const EmptyState := State([], Dict([], map[]))

  /** The loop of `Tree.__init__` over the first keys `ks` of the translations. */
  function BuildKeys(syntax: Dict<string, Translation>, ks: seq<string>, safe: string): (r: State)
    requires forall k :: k in ks ==> k in syntax.entries
    ensures Valid(r)
  {
    if ks == [] then EmptyState
    else
      var k := ks[|ks| - 1];
      AfterBuild(BuildKeys(syntax, ks[..|ks| - 1], safe), KeyPath(k), KeyLeaf(k), Some(syntax.entries[k]), safe)
  }

  lemma BuildKeysStep(syntax: Dict<string, Translation>, ks: seq<string>, i: nat, safe: string)
    requires i < |ks| && forall k :: k in ks ==> k in syntax.entries
    ensures BuildKeys(syntax, ks[..i + 1], safe)
         == AfterBuild(BuildKeys(syntax, ks[..i], safe), KeyPath(ks[i]), KeyLeaf(ks[i]), Some(syntax.entries[ks[i]]), safe)
  {
    assert ks[..i + 1][..i] == ks[..i];
  }

  class Tree {
    var safeSeparator: string
    var separator: string
    var ftlSyntax: Dict<string, Translation>
    /** The node objects. */
    var store: seq<TreeNode>
    /** `self.elements`. */
    var elements: Dict<Path, nat>

    function Contents(): State
      reads this
    {
      State(store, elements)
    }

    /** `Tree(ftl_syntax, separator, safe_separator)`.  Keys are split on
        "-" whatever `separator` is. */
    constructor (ftlSyntax: Dict<string, Translation>, separator: string := "-", safeSeparator: string := "")
      requires DictOk(ftlSyntax)
      ensures Contents() == BuildKeys(ftlSyntax, ftlSyntax.keys, safeSeparator)
      ensures this.safeSeparator == safeSeparator && this.separator == separator && this.ftlSyntax == ftlSyntax
    {
      this.safeSeparator := safeSeparator;
      this.ftlSyntax := ftlSyntax;
      this.separator := separator;
      store := [];
      elements := Dict([], map[]);
      new;
      var i := 0;
      while i < |ftlSyntax.keys|
        invariant 0 <= i <= |ftlSyntax.keys|
        invariant Contents() == BuildKeys(ftlSyntax, ftlSyntax.keys[..i], safeSeparator)
        invariant this.safeSeparator == safeSeparator && this.separator == separator && this.ftlSyntax == ftlSyntax
      {
        var key := ftlSyntax.keys[i];
        var pointPath, name := KeyPath(key), KeyLeaf(key);
        BuildKeysStep(ftlSyntax, ftlSyntax.keys, i, safeSeparator);
        Build(pointPath, name, Some(ftlSyntax.entries[key]));
        i := i + 1;
      }
      assert ftlSyntax.keys[..i] == ftlSyntax.keys;
    }

    /** `path_to_str`. */
    function PathText(path: Path): string
      reads this
    {
      PathToStr(path, safeSeparator)
    }

    /** `_build`: allocate the node, build the parent's path first if it is
        missing, hang the node under the parent, register it unless the path
        is taken. */
    method Build(path: Path, name: string, value: Option<Translation>)
      requires Valid(Contents())
      modifies this
      ensures Contents() == AfterBuild(old(Contents()), path, name, value, safeSeparator)
      ensures safeSeparator == old(safeSeparator) && separator == old(separator) && ftlSyntax == old(ftlSyntax)
      decreases |path|
    {
      var ownClassDef := NewNode(path, name, value, safeSeparator);
      var own := |store|;
      store := store + [ownClassDef];
      if path != [] {
        if path !in elements.entries {
          assert path[..|path| - 1] + [path[|path| - 1]] == path;
          Build(path[..|path| - 1], path[|path| - 1], None);
        }
        var parent := elements.entries[path];
        store := store[parent := store[parent].(children := Put(store[parent].children, name, own))];
      }
      elements := SetDefault(elements, path + [name], own);
    }
  }

  // ---------------------------------------------------------------------
  // Properties of `_build`
  // ---------------------------------------------------------------------

  /** Only `children` of an existing node may change. */
  predicate SameButChildren(a: TreeNode, b: TreeNode) {
    a.path == b.path && a.name == b.name && a.value == b.value && a.vars == b.vars
  }

  /** `b` holds the nodes of `a`, changed at most in their children, and maybe more after them. */
  predicate Keeps(a: seq<TreeNode>, b: seq<TreeNode>) {
    |a| <= |b| && forall i :: 0 <= i < |a| ==> SameButChildren(b[i], a[i])
  }

  /** The nodes from `from` on have no value and no variables. */
  predicate Blank(b: seq<TreeNode>, from: nat) {
    forall i :: from <= i < |b| ==> b[i].value == "" && b[i].vars == []
  }

  lemma KeepsTrans(a: seq<TreeNode>, b: seq<TreeNode>, c: seq<TreeNode>)
    requires Keeps(a, b) && Keeps(b, c)
    ensures Keeps(a, c)
  {
  }

  lemma KeepsBlank(a: seq<TreeNode>, b: seq<TreeNode>, from: nat)
    requires Keeps(a, b) && |a| == |b| && Blank(a, from)
    ensures Blank(b, from)
  {
  }

  lemma SetChildKeeps(st: State, path: Path, name: string, node: nat)
    requires Valid(st) && path in st.elements.entries && node < |st.store|
    ensures Keeps(st.store, SetChild(st, path, name, node).store)
  {
  }

  /** A `_build` call keeps the earlier nodes but for their children; its
      own node comes first among the new ones; the intermediate nodes it
      creates have no value and no variables. */
  lemma {:induction false} BuildNodes(st: State, path: Path, name: string, value: Option<Translation>, safe: string)
    requires Valid(st)
    ensures var r := AfterBuild(st, path, name, value, safe);
            Keeps(st.store + [NewNode(path, name, value, safe)], r.store) && Blank(r.store, |st.store| + 1)
    decreases |path|, 1
  {
    var st1 := Alloc(st, NewNode(path, name, value, safe));
    var st2 := BuildParent(st1, path, safe);
    BuildParentNodes(st1, path, safe);
    if path != [] {
      SetChildKeeps(st2, path, name, |st.store|);
      var st3 := SetChild(st2, path, name, |st.store|);
      KeepsTrans(st1.store, st2.store, st3.store);
      KeepsBlank(st2.store, st3.store, |st1.store|);
    }
  }

  lemma {:induction false} BuildParentNodes(st: State, path: Path, safe: string)
    requires Valid(st)
    ensures var r := BuildParent(st, path, safe);
            Keeps(st.store, r.store) && Blank(r.store, |st.store|)
    decreases |path|, 0
  {
    if path != [] && path !in st.elements.entries {
      var r := BuildParent(st, path, safe);
      var up := NewNode(Up(path), path[|path| - 1], None, safe);
      BuildNodes(st, Up(path), path[|path| - 1], None, safe);
      assert SameButChildren(r.store[|st.store|], (st.store + [up])[|st.store|]);
      forall i | 0 <= i < |st.store|
        ensures SameButChildren(r.store[i], st.store[i])
      {
        assert (st.store + [up])[i] == st.store[i];
      }
    }
  }

  /** `m` holds every entry of `a` unchanged. */
  predicate SubMap(a: map<Path, nat>, m: map<Path, nat>) {
    forall p :: p in a ==> p in m && m[p] == a[p]
  }

  /** The paths of `m` that `a` lacks are non-empty prefixes of `path`. */
  predicate NewPrefixes(a: map<Path, nat>, m: map<Path, nat>, path: Path) {
    forall p :: p in m ==> p in a || (1 <= |p| <= |path| && p == path[..|p|])
  }

  lemma SetDefaultPaths(e: Dict<Path, nat>, full: Path, v: nat)
    requires DictOk(e)
    ensures var r := SetDefault(e, full, v).entries;
            SubMap(e.entries, r) && (forall q :: q in r ==> q in e.entries || q == full)
            && (full !in e.entries ==> r[full] == v)
  {
  }

  /** `_build` changes no registered path, and registers only `path + [name]`
      and prefixes of `path`. */
  lemma {:induction false} BuildPaths(st: State, path: Path, name: string, value: Option<Translation>, safe: string)
    requires Valid(st)
    ensures var r := AfterBuild(st, path, name, value, safe).elements.entries;
            SubMap(st.elements.entries, r) && NewPrefixes(st.elements.entries, r, path + [name])
    decreases |path|, 1
  {
    var full := path + [name];
    var st1 := Alloc(st, NewNode(path, name, value, safe));
    var st2 := BuildParent(st1, path, safe);
    BuildParentPaths(st1, path, safe);
    var st3 := if path != [] then SetChild(st2, path, name, |st.store|) else st2;
    assert st3.elements == st2.elements;
    CombinePaths(st.elements, st2.elements, path, name, |st.store|);
  }

  lemma CombinePaths(e: Dict<Path, nat>, m: Dict<Path, nat>, path: Path, name: string, v: nat)
    requires DictOk(m) && SubMap(e.entries, m.entries) && NewPrefixes(e.entries, m.entries, path)
    ensures var r := SetDefault(m, path + [name], v).entries;
            SubMap(e.entries, r) && NewPrefixes(e.entries, r, path + [name])
  {
    var full := path + [name];
    SetDefaultPaths(m, full, v);
    var r := SetDefault(m, full, v).entries;
    forall q | q in r && q !in e.entries
      ensures 1 <= |q| <= |full| && q == full[..|q|]
    {
      if q != full {
        PrefixOfPrefix(path, name, q);
      }
    }
  }

  lemma PrefixOfPrefix(path: Path, name: string, q: Path)
    requires |q| <= |path| && q == path[..|q|]
    ensures q == (path + [name])[..|q|]
  {
    assert (path + [name])[..|q|] == path[..|q|];
  }

  lemma {:induction false} BuildParentPaths(st: State, path: Path, safe: string)
    requires Valid(st)
    ensures var r := BuildParent(st, path, safe).elements.entries;
            SubMap(st.elements.entries, r) && NewPrefixes(st.elements.entries, r, path)
    decreases |path|, 0
  {
    if path != [] && path !in st.elements.entries {
      BuildPaths(st, Up(path), path[|path| - 1], None, safe);
    }
  }

  /** `setdefault`: a path already registered keeps its first node, a new
      one gets this call's node (the first new node of the arena); the
      parent's `children` always gets this call's node.  So after "a-b-c",
      building "a-b" hangs its new node under "a" while `elements` keeps the
      first "b" node: the outcome of a prefix conflict depends on the
      insertion order. */
  lemma BuildRegisters(st: State, path: Path, name: string, value: Option<Translation>, safe: string)
    requires Valid(st)
    ensures var r := AfterBuild(st, path, name, value, safe);
            (path + [name] in st.elements.entries ==>
               r.elements.entries[path + [name]] == st.elements.entries[path + [name]])
            && (path + [name] !in st.elements.entries ==> r.elements.entries[path + [name]] == |st.store|)
            && (path != [] ==>
                  (path in r.elements.entries && r.store[r.elements.entries[path]].children.entries[name] == |st.store|))
  {
    var full := path + [name];
    var st1 := Alloc(st, NewNode(path, name, value, safe));
    var st2 := BuildParent(st1, path, safe);
    BuildParentPaths(st1, path, safe);
    assert full !in st.elements.entries ==> full !in st2.elements.entries;
    var st3 := if path != [] then SetChild(st2, path, name, |st.store|) else st2;
    assert st3.elements == st2.elements;
    SetDefaultPaths(st2.elements, full, |st.store|);
  }

  /** Registering a path whose proper prefixes are registered keeps `elements` prefix-closed. */
  lemma SetDefaultPrefixClosed(e: Dict<Path, nat>, full: Path, v: nat)
    requires DictOk(e) && PrefixClosed(e) && full != [] && forall j :: 1 <= j < |full| ==> full[..j] in e.entries
    ensures PrefixClosed(SetDefault(e, full, v))
  {
  }

  /** `_build` keeps `elements` prefix-closed. */
  lemma {:induction false} BuildPrefixClosed(st: State, path: Path, name: string, value: Option<Translation>, safe: string)
    requires Valid(st) && PrefixClosed(st.elements)
    ensures PrefixClosed(AfterBuild(st, path, name, value, safe).elements)
    decreases |path|, 1
  {
    var full := path + [name];
    var st1 := Alloc(st, NewNode(path, name, value, safe));
    var st2 := BuildParent(st1, path, safe);
    BuildParentPrefixClosed(st1, path, safe);
    var st3 := if path != [] then SetChild(st2, path, name, |st.store|) else st2;
    assert st3.elements == st2.elements;
    forall j | 1 <= j < |full|
      ensures full[..j] in st3.elements.entries
    {
      TakeWithin(path, [name], j);
    }
    SetDefaultPrefixClosed(st3.elements, full, |st.store|);
    assert AfterBuild(st, path, name, value, safe) == Register(st3, full, |st.store|);
  }

  lemma {:induction false} BuildParentPrefixClosed(st: State, path: Path, safe: string)
    requires Valid(st) && PrefixClosed(st.elements)
    ensures var r := BuildParent(st, path, safe).elements;
            PrefixClosed(r) && (path != [] ==> forall j :: 1 <= j <= |path| ==> path[..j] in r.entries)
    decreases |path|, 0
  {
    var r := BuildParent(st, path, safe).elements;
    if path != [] && path !in st.elements.entries {
      BuildPrefixClosed(st, Up(path), path[|path| - 1], None, safe);
    }
    assert PrefixClosed(r);
    if path != [] {
      assert path in r.entries;
      forall j | 1 <= j <= |path|
        ensures path[..j] in r.entries
      {
        if j == |path| {
          TakeAll(path);
        }
      }
    }
  }

  /** Every key of `ks` has its full path registered in `e`. */
  predicate Registered(e: map<Path, nat>, ks: seq<string>) {
    forall k :: k in ks ==> FullPath(k) in e
  }

  lemma RegisteredStep(e: map<Path, nat>, m: map<Path, nat>, ks: seq<string>)
    requires ks != [] && Registered(e, ks[..|ks| - 1]) && SubMap(e, m) && FullPath(ks[|ks| - 1]) in m
    ensures Registered(m, ks)
  {
    assert forall x :: x in ks ==> x in ks[..|ks| - 1] || x == ks[|ks| - 1];
  }

  /** After `Tree.__init__`, the path ("", p1, ..., pn) of every key
      "p1-...-pn" is registered. */
  lemma {:induction false} BuildKeysRegistered(syntax: Dict<string, Translation>, ks: seq<string>, safe: string)
    requires forall k :: k in ks ==> k in syntax.entries
    ensures Registered(BuildKeys(syntax, ks, safe).elements.entries, ks)
    decreases |ks|
  {
    if ks != [] {
      var init, k := ks[..|ks| - 1], ks[|ks| - 1];
      BuildKeysRegistered(syntax, init, safe);
      var before := BuildKeys(syntax, init, safe);
      BuildPaths(before, KeyPath(k), KeyLeaf(k), Some(syntax.entries[k]), safe);
      RegisteredStep(before.elements.entries, BuildKeys(syntax, ks, safe).elements.entries, ks);
    }
  }

  /** ... and with every path, all its non-empty prefixes. */
  lemma {:induction false} BuildKeysPrefixClosed(syntax: Dict<string, Translation>, ks: seq<string>, safe: string)
    requires forall k :: k in ks ==> k in syntax.entries
    ensures PrefixClosed(BuildKeys(syntax, ks, safe).elements)
    decreases |ks|
  {
    if ks != [] {
      var init, k := ks[..|ks| - 1], ks[|ks| - 1];
      BuildKeysPrefixClosed(syntax, init, safe);
      BuildPrefixClosed(BuildKeys(syntax, init, safe), KeyPath(k), KeyLeaf(k), Some(syntax.entries[k]), safe);
    }
  }

  lemma PrefixRegistered(e: Dict<Path, nat>, p: Path, j: nat)
    requires PrefixClosed(e) && p in e.entries && 1 <= j <= |p|
    ensures p[..j] in e.entries
  {
    if j == |p| {
      assert p[..j] == p;
    }
  }

  /** The same, for a constructed `Tree`. */
  lemma TreeHoldsKeys(t: Tree)
    requires DictOk(t.ftlSyntax) && t.Contents() == BuildKeys(t.ftlSyntax, t.ftlSyntax.keys, t.safeSeparator)
    ensures PrefixClosed(t.elements)
    ensures forall k, j :: k in t.ftlSyntax.keys && 1 <= j <= |FullPath(k)| ==> FullPath(k)[..j] in t.elements.entries
  {
    BuildKeysRegistered(t.ftlSyntax, t.ftlSyntax.keys, t.safeSeparator);
    BuildKeysPrefixClosed(t.ftlSyntax, t.ftlSyntax.keys, t.safeSeparator);
    forall k, j | k in t.ftlSyntax.keys && 1 <= j <= |FullPath(k)|
      ensures FullPath(k)[..j] in t.elements.entries
    {
      PrefixRegistered(t.elements, FullPath(k), j);
    }
  }
}
