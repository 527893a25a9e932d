/** fluentogram/stub_generator/generator.py: the standalone generator that
    groups message keys by their first dash segment, rejects a key that is
    both simple and the prefix of compound keys, and writes one class per
    group.

    The parameters of a message are the set the method signature is built
    from; a `Params` value is any listing of that set. */
module StubGenerator {
  import opened Wrappers
  import opened Text
  import opened Dicts
  import StubParser

  type Params = seq<string>

  // ---------------------------------------------------------------------
  // The output file and the input files (`Generator.__init__`)
  // ---------------------------------------------------------------------

  datatype GeneratorError =
    | NotPyi                                               // ValueError: the output is not a .pyi file
    | NoSource                                             // ValueError: neither a file nor a directory
    | KeyConflict(simpleKey: string, groupedKeys: seq<string>)  // StubGeneratorKeyConflictError
    | TypeError                                            // `sorted` of a value that is not iterable
    | ImportError(name: string)                            // a name the imported module does not define

  /** The last component of a POSIX path: empty and "." components are dropped. */
  function LastPart(parts: seq<string>): (r: string)
    ensures r == "" || r in parts
  {
    if parts == [] then ""
    else if parts[|parts| - 1] == "" || parts[|parts| - 1] == "." then LastPart(parts[..|parts| - 1])
    else parts[|parts| - 1]
  }

  /** `str.rfind(c)`: the last position of `c`, or -1. */
  function RFind(s: string, c: char): (r: int)
    ensures -1 <= r < |s|
    ensures r >= 0 ==> s[r] == c
    ensures forall j :: r < j < |s| ==> s[j] != c
  {
    if s == [] then -1
    else if s[|s| - 1] == c then |s| - 1
    else RFind(s[..|s| - 1], c)
  }

  /** `Path(p).suffix`: from the last "." of the name, unless that dot is the
      name's first or last character. */
  function Suffix(p: string): (r: string)
  {
    var name := LastPart(Split(p, "/"));
    var i := RFind(name, '.');
    if 0 < i < |name| - 1 then name[i..] else ""
  }

  /** The two checks of the constructor, in the order it makes them. */
  function Validate(outputFile: string, filePath: Option<string>, directory: Option<string>): (r: Option<GeneratorError>)
    ensures r == Some(NotPyi) <==> Suffix(outputFile) != ".pyi"
    ensures r == Some(NoSource) <==> Suffix(outputFile) == ".pyi" && filePath.None? && directory.None?
    ensures r == None <==> Suffix(outputFile) == ".pyi" && (filePath.Some? || directory.Some?)
  {
    if Suffix(outputFile) != ".pyi" then Some(NotPyi)
    else if filePath.None? && directory.None? then Some(NoSource)
    else None
  }

  /** The set of input files: the file when its name is non-empty, the
      directory's `*.ftl` matches (`globbed`) when its name is non-empty. */
  function Files(filePath: Option<string>, directory: Option<string>, globbed: set<string>): (r: set<string>)
    ensures filePath.Some? && filePath.value != "" ==> filePath.value in r
    ensures directory.Some? && directory.value != "" ==> globbed <= r
    ensures forall f :: f in r ==> (filePath == Some(f) && f != "") || (directory.Some? && directory.value != "" && f in globbed)
  {
    (if filePath.Some? && filePath.value != "" then {filePath.value} else {})
    + (if directory.Some? && directory.value != "" then globbed else {})
  }

  /** A name with a non-empty stem and no directory keeps ".pyi" as its suffix. */
  lemma PyiSuffix(stem: string)
    requires stem != "" && '/' !in stem
    ensures Suffix(stem + ".pyi") == ".pyi"
  {
    var name := stem + ".pyi";
    SplitFromPlain(name, "/", "");
    assert "" + name == name;
    assert LastPart([name]) == name;
    assert name[|stem|] == '.' && name[|stem| + 1..] == "pyi";
    assert RFind(name, '.') == |stem|;
    assert name[|stem|..] == ".pyi";
  }

  /** A hidden file called ".pyi" has no suffix, so it is refused. */
  lemma BarePyiRefused(outputFile: string, filePath: Option<string>, directory: Option<string>)
    requires outputFile == ".pyi"
    ensures Validate(outputFile, filePath, directory) == Some(NotPyi)
  {
    SplitFromPlain(outputFile, "/", "");
    assert "" + outputFile == outputFile;
    assert LastPart([outputFile]) == outputFile;
    assert outputFile[1..] == "pyi";
    assert RFind(outputFile, '.') == 0;
  }

  // ---------------------------------------------------------------------
  // Names and signatures
  // ---------------------------------------------------------------------

  predicate Compound(name: string) {
    '-' in name
  }

  /** The first dash segment: the whole name when it has no dash. */
  function BaseName(name: string): string {
    Split(name, "-")[0]
  }

  /** `_generate_class_name`. */
  function ClassName(name: string): string {
    if Compound(name) then Title(Split(name, "-")[0]) else Title(name)
  }

  /** `name.split("-")[1]` of a compound key. */
  function MethodName(name: string): string
    requires Compound(name)
  {
    SplitCharCount(name, '-');
    Split(name, "-")[1]
  }

  /** Each parameter typed as `str`. */
  function Typed(params: seq<string>): (r: seq<string>)
    ensures |r| == |params| && forall i :: 0 <= i < |params| ==> r[i] == params[i] + ": str"
  {
    if params == [] then [] else [params[0] + ": str"] + Typed(params[1..])
  }

  /** `sorted(params)` of the set listed by `params`. */
  function SortedParams(params: Params): (r: seq<string>)
    ensures Sorted(r) && NoDup(r) && forall x :: x in r <==> x in params
  {
    SortKeepsElements(Dedup(params));
    Sort(Dedup(params))
  }

  /** The comma-separated typed parameters. */
  function ParamList(params: Params): string {
    Join(Typed(SortedParams(params)), ", ")
  }

  /** `_generate_method_signature`. */
  function Signature(name: string, params: Params): string {
    if params == [] then "    def " + name + "(self) -> str: ..."
    else "    def " + name + "(self, " + ParamList(params) + ") -> str: ..."
  }

  /** The class name is the title-cased first segment, with or without a dash. */
  lemma ClassNameIsTitledBase(name: string)
    ensures ClassName(name) == Title(BaseName(name))
  {
    if !Compound(name) {
      SplitFromPlain(name, "-", "");
      assert "" + name == name;
    }
  }

  /** For `p-q-...` (segments free of dashes) the class is `Title(p)` and the method is `q`. */
  lemma CompoundNames(parts: seq<string>)
    requires |parts| >= 2 && forall i :: 0 <= i < |parts| ==> '-' !in parts[i]
    ensures var name := Join(parts, "-");
            Compound(name) && ClassName(name) == Title(parts[0]) && MethodName(name) == parts[1]
  {
    var name := Join(parts, "-");
    SplitJoin(parts, "-");
    SplitCharCount(name, '-');
  }

  /** Only the second segment names the method, so "a-b-c" and "a-b-d" give the same method. */
  lemma SecondSegmentCollides(p: string, q: string, r1: string, r2: string)
    requires '-' !in p && '-' !in q && '-' !in r1 && '-' !in r2
    ensures Compound(Join([p, q, r1], "-")) && Compound(Join([p, q, r2], "-"))
    ensures MethodName(Join([p, q, r1], "-")) == MethodName(Join([p, q, r2], "-")) == q
  {
    CompoundNames([p, q, r1]);
    CompoundNames([p, q, r2]);
  }

  /** The signature depends only on the set of parameters, not on how it is listed. */
  lemma SignatureOfSet(name: string, a: Params, b: Params)
    requires forall x :: x in a <==> x in b
    ensures Signature(name, a) == Signature(name, b)
  {
    SortedUnique(SortedParams(a), SortedParams(b));
    if a == [] && b != [] {
      HeadIn(b);
      assert false;
    }
    if b == [] && a != [] {
      HeadIn(a);
      assert false;
    }
  }

  /** The argument-less form is used exactly when there are no parameters. */
  lemma SignatureWithoutParams(name: string, params: Params)
    ensures Signature(name, params) == "    def " + name + "(self) -> str: ..." <==> params == []
  {
    if params != [] {
      assert |Signature(name, params)| > |"    def " + name + "(self) -> str: ..."|;
    }
  }

  lemma TypedNoComma(xs: seq<string>)
    requires forall i :: 0 <= i < |xs| ==> ',' !in xs[i]
    ensures forall i :: 0 <= i < |xs| ==> ',' !in Typed(xs)[i]
  {
    forall i | 0 <= i < |xs| ensures ',' !in Typed(xs)[i] {
      assert Typed(xs)[i] == xs[i] + ": str";
      assert ',' !in ": str";
    }
  }

  /** The parameter list reads back as the sorted parameters, each typed `str`. */
  lemma SignatureParamsReadBack(params: Params)
    requires params != [] && forall x :: x in params ==> ',' !in x
    ensures Split(ParamList(params), ", ") == Typed(SortedParams(params))
  {
    var sorted := SortedParams(params);
    HeadIn(params);
    assert params[0] in sorted;
    assert forall i :: 0 <= i < |sorted| ==> sorted[i] in params;
    TypedNoComma(sorted);
    SplitJoin(Typed(sorted), ", ");
  }

  // ---------------------------------------------------------------------
  // `_group_messages`
  // ---------------------------------------------------------------------

  /** `simple_messages` after `_group_messages` has seen the keys `names`. */
  function Simple(names: seq<string>, ms: map<string, Params>): Dict<string, Params>
    requires forall n :: n in names ==> n in ms
  {
    if names == [] then Dict([], map[])
    else
      var n := names[|names| - 1];
      var s := Simple(names[..|names| - 1], ms);
      if Compound(n) then s else Put(s, n, ms[n])
  }

  /** `grouped_messages` after `_group_messages` has seen the keys `names`. */
  function Grouped(names: seq<string>, ms: map<string, Params>): Dict<string, Dict<string, Params>>
    requires forall n :: n in names ==> n in ms
  {
    if names == [] then Dict([], map[])
    else
      var n := names[|names| - 1];
      var g := Grouped(names[..|names| - 1], ms);
      if Compound(n) then
        var b := BaseName(n);
        var inner := if b in g.entries then g.entries[b] else Dict([], map[]);
        Put(g, b, Put(inner, n, ms[n]))
      else g
  }

  /** The keys without a dash, in order. */
  function SimpleKeys(names: seq<string>): (r: seq<string>)
    ensures forall x :: x in r <==> x in names && !Compound(x)
  {
    if names == [] then []
    else SimpleKeys(names[..|names| - 1]) + (if Compound(names[|names| - 1]) then [] else [names[|names| - 1]])
  }

  /** The keys with a dash whose first segment is `b`, in order. */
  function GroupKeys(names: seq<string>, b: string): (r: seq<string>)
    ensures forall x :: x in r <==> x in names && Compound(x) && BaseName(x) == b
  {
    if names == [] then []
    else
      var n := names[|names| - 1];
      GroupKeys(names[..|names| - 1], b) + (if Compound(n) && BaseName(n) == b then [n] else [])
  }

  /** The first segments of the keys with a dash, each once, in the order it first appears. */
  function FirstBases(names: seq<string>): (r: seq<string>)
    ensures NoDup(r)
    ensures forall b :: b in r <==> exists n :: n in names && Compound(n) && BaseName(n) == b
  {
    if names == [] then []
    else
      var n := names[|names| - 1];
      var r := FirstBases(names[..|names| - 1]);
      assert forall m :: m in names <==> m in names[..|names| - 1] || m == n;
      if Compound(n) then AddUnique(r, BaseName(n)) else r
  }

  /** The simple messages keep the order of their keys and their parameters. */
  lemma {:induction false} SimpleShape(names: seq<string>, ms: map<string, Params>)
    requires NoDup(names) && forall n :: n in names ==> n in ms
    ensures var s := Simple(names, ms);
            DictOk(s) && s.keys == SimpleKeys(names) && forall n :: n in s.entries ==> s.entries[n] == ms[n]
    decreases |names|
  {
    if names != [] {
      var init, n := names[..|names| - 1], names[|names| - 1];
      assert NoDup(init);
      SimpleShape(init, ms);
      assert n !in init;
    }
  }

  /** The groups appear in the order their first key appeared. */
  lemma {:induction false} GroupedShape(names: seq<string>, ms: map<string, Params>)
    requires forall n :: n in names ==> n in ms
    ensures var g := Grouped(names, ms);
            DictOk(g) && g.keys == FirstBases(names)
    decreases |names|
  {
    if names != [] {
      GroupedShape(names[..|names| - 1], ms);
    }
  }

  /** A group holding exactly `keys`, in that order, with their parameters. */
  predicate GroupIs(inner: Dict<string, Params>, keys: seq<string>, ms: map<string, Params>) {
    DictOk(inner) && inner.keys == keys && forall n :: n in inner.entries ==> n in ms && inner.entries[n] == ms[n]
  }

  lemma GroupGrows(inner: Dict<string, Params>, keys: seq<string>, ms: map<string, Params>, n: string)
    requires GroupIs(inner, keys, ms) && n in ms && n !in keys
    ensures GroupIs(Put(inner, n, ms[n]), keys + [n], ms)
  {
  }

  lemma {:induction false} NoKeysNoGroup(names: seq<string>, b: string)
    requires forall n :: n in names ==> !(Compound(n) && BaseName(n) == b)
    ensures GroupKeys(names, b) == []
    decreases |names|
  {
    if names != [] {
      NoKeysNoGroup(names[..|names| - 1], b);
    }
  }

  predicate GroupsAre(g: Dict<string, Dict<string, Params>>, names: seq<string>, ms: map<string, Params>) {
    forall b :: b in g.entries ==> GroupIs(g.entries[b], GroupKeys(names, b), ms)
  }

  /** A key with a dash goes last in the group of its first segment, which is created when new. */
  lemma CompoundStep(names: seq<string>, ms: map<string, Params>)
    requires names != [] && NoDup(names) && forall n :: n in names ==> n in ms
    requires Compound(names[|names| - 1])
    requires GroupsAre(Grouped(names[..|names| - 1], ms), names[..|names| - 1], ms)
    ensures GroupsAre(Grouped(names, ms), names, ms)
  {
    var init, n := names[..|names| - 1], names[|names| - 1];
    GroupedShape(init, ms);
    assert n !in init;
    var g := Grouped(init, ms);
    var b := BaseName(n);
    var inner := if b in g.entries then g.entries[b] else Dict([], map[]);
    if b !in g.entries {
      assert b !in FirstBases(init);
      assert forall m :: m in init ==> !(Compound(m) && BaseName(m) == b);
      NoKeysNoGroup(init, b);
    }
    assert GroupIs(inner, GroupKeys(init, b), ms);
    GroupGrows(inner, GroupKeys(init, b), ms, n);
    var g' := Grouped(names, ms);
    assert g' == Put(g, b, Put(inner, n, ms[n]));
    assert GroupKeys(names, b) == GroupKeys(init, b) + [n];
    forall c | c in g'.entries ensures GroupIs(g'.entries[c], GroupKeys(names, c), ms) {
      if c != b {
        GroupUntouched(names, ms, c);
      }
    }
  }

  lemma GroupUntouched(names: seq<string>, ms: map<string, Params>, c: string)
    requires names != [] && forall n :: n in names ==> n in ms
    requires Compound(names[|names| - 1]) && c != BaseName(names[|names| - 1])
    requires GroupsAre(Grouped(names[..|names| - 1], ms), names[..|names| - 1], ms)
    requires c in Grouped(names, ms).entries
    ensures GroupIs(Grouped(names, ms).entries[c], GroupKeys(names, c), ms)
  {
    var init := names[..|names| - 1];
    assert GroupKeys(names, c) == GroupKeys(init, c) + [];
    assert Grouped(names, ms).entries[c] == Grouped(init, ms).entries[c];
  }

  /** A key without a dash leaves every group as it is. */
  lemma SimpleStepKeepsGroups(names: seq<string>, ms: map<string, Params>)
    requires names != [] && forall n :: n in names ==> n in ms
    requires !Compound(names[|names| - 1])
    requires GroupsAre(Grouped(names[..|names| - 1], ms), names[..|names| - 1], ms)
    ensures GroupsAre(Grouped(names, ms), names, ms)
  {
    var init := names[..|names| - 1];
    forall c ensures GroupKeys(names, c) == GroupKeys(init, c) {
      assert GroupKeys(names, c) == GroupKeys(init, c) + [];
    }
  }

  /** Each group holds its keys in order, with their parameters. */
  lemma {:induction false} GroupedInner(names: seq<string>, ms: map<string, Params>)
    requires NoDup(names) && forall n :: n in names ==> n in ms
    ensures GroupsAre(Grouped(names, ms), names, ms)
    decreases |names|
  {
    if names != [] {
      var init := names[..|names| - 1];
      assert NoDup(init);
      GroupedInner(init, ms);
      if Compound(names[|names| - 1]) {
        CompoundStep(names, ms);
      } else {
        SimpleStepKeepsGroups(names, ms);
      }
    }
  }

  /** Every key lands in exactly one place: a key without a dash among the
      simple messages, a key with a dash in the group of its first segment,
      and nothing else is added. */
  lemma GroupPartition(names: seq<string>, ms: map<string, Params>)
    requires NoDup(names) && forall n :: n in names ==> n in ms
    ensures var (g, s) := (Grouped(names, ms), Simple(names, ms));
            (forall n :: n in s.entries <==> n in names && !Compound(n)) &&
            (forall n :: n in names && Compound(n) ==> BaseName(n) in g.entries) &&
            (forall b, n :: b in g.entries ==>
               (n in g.entries[b].entries <==> n in names && Compound(n) && BaseName(n) == b))
  {
    SimpleShape(names, ms);
    GroupedShape(names, ms);
    GroupedInner(names, ms);
    var g := Grouped(names, ms);
    forall n | n in names && Compound(n) ensures BaseName(n) in g.entries {
      assert BaseName(n) in FirstBases(names);
    }
  }

  lemma SimpleStep(names: seq<string>, ms: map<string, Params>, i: nat)
    requires i < |names| && forall n :: n in names ==> n in ms
    ensures Simple(names[..i + 1], ms) ==
            if Compound(names[i]) then Simple(names[..i], ms) else Put(Simple(names[..i], ms), names[i], ms[names[i]])
  {
    assert names[..i + 1][..i] == names[..i];
  }

  lemma GroupedStep(names: seq<string>, ms: map<string, Params>, i: nat)
    requires i < |names| && forall n :: n in names ==> n in ms
    ensures var g := Grouped(names[..i], ms);
            var b := BaseName(names[i]);
            var inner := if b in g.entries then g.entries[b] else Dict([], map[]);
            Grouped(names[..i + 1], ms) == if Compound(names[i]) then Put(g, b, Put(inner, names[i], ms[names[i]])) else g
  {
    assert names[..i + 1][..i] == names[..i];
  }

  /** The loop of `_group_messages`. */
  method GroupMessages(messages: Dict<string, Params>) returns (grouped: Dict<string, Dict<string, Params>>, simple: Dict<string, Params>)
    requires DictOk(messages)
    ensures grouped == Grouped(messages.keys, messages.entries)
    ensures simple == Simple(messages.keys, messages.entries)
  {
    grouped, simple := Dict([], map[]), Dict([], map[]);
    var i := 0;
    while i < |messages.keys|
      invariant 0 <= i <= |messages.keys|
      invariant grouped == Grouped(messages.keys[..i], messages.entries)
      invariant simple == Simple(messages.keys[..i], messages.entries)
    {
      var name := messages.keys[i];
      var params := messages.entries[name];
      SimpleStep(messages.keys, messages.entries, i);
      GroupedStep(messages.keys, messages.entries, i);
      if '-' in name {
        var baseName := Split(name, "-")[0];
        if baseName !in grouped.entries {
          PutTwice(grouped, baseName, Dict([], map[]), Put(Dict([], map[]), name, params));
          grouped := Put(grouped, baseName, Dict([], map[]));
        }
        grouped := Put(grouped, baseName, Put(grouped.entries[baseName], name, params));
      } else {
        simple := Put(simple, name, params);
      }
      i := i + 1;
    }
    assert messages.keys[..i] == messages.keys;
  }

  // ---------------------------------------------------------------------
  // `_check_for_conflict`
  // ---------------------------------------------------------------------

  /** The first group, in order, whose first segment is also a simple key. */
  function FirstConflict(bases: seq<string>, g: Dict<string, Dict<string, Params>>, s: Dict<string, Params>): (r: Option<GeneratorError>)
    requires forall b :: b in bases ==> b in g.entries
    ensures r.None? <==> forall b :: b in bases ==> b !in s.entries
    ensures r.Some? ==> r.value.KeyConflict? && r.value.simpleKey in bases && r.value.simpleKey in s.entries
                        && r.value.groupedKeys == g.entries[r.value.simpleKey].keys
  {
    if bases == [] then None
    else if bases[0] in s.entries then Some(KeyConflict(bases[0], g.entries[bases[0]].keys))
    else FirstConflict(bases[1..], g, s)
  }

  /** The loop of `_check_for_conflict`: it stops at the first conflict. */
  method CheckForConflict(grouped: Dict<string, Dict<string, Params>>, simple: Dict<string, Params>) returns (r: Option<GeneratorError>)
    requires DictOk(grouped)
    ensures r == FirstConflict(grouped.keys, grouped, simple)
  {
    var i := 0;
    while i < |grouped.keys|
      invariant 0 <= i <= |grouped.keys|
      invariant FirstConflict(grouped.keys[i..], grouped, simple) == FirstConflict(grouped.keys, grouped, simple)
    {
      var name := grouped.keys[i];
      assert grouped.keys[i..][1..] == grouped.keys[i + 1..];
      if name in simple.entries {
        return Some(KeyConflict(name, grouped.entries[name].keys));
      }
      i := i + 1;
    }
    return None;
  }

  /** The generator refuses the keys exactly when a key without a dash is
      the first segment of a key with one. */
  lemma ConflictExactly(names: seq<string>, ms: map<string, Params>)
    requires NoDup(names) && forall n :: n in names ==> n in ms
    ensures var (g, s) := (Grouped(names, ms), Simple(names, ms));
            DictOk(g) &&
            (FirstConflict(g.keys, g, s).Some? <==>
             exists n, m :: n in names && m in names && !Compound(n) && Compound(m) && BaseName(m) == n)
  {
    SimpleShape(names, ms);
    GroupedShape(names, ms);
    var (g, s) := (Grouped(names, ms), Simple(names, ms));
    if FirstConflict(g.keys, g, s).Some? {
      var b := FirstConflict(g.keys, g, s).value.simpleKey;
      assert b in FirstBases(names);
      var m :| m in names && Compound(m) && BaseName(m) == b;
      assert b in names && !Compound(b);
    } else {
      forall n, m | n in names && m in names && Compound(m) && BaseName(m) == n
        ensures Compound(n)
      {
        assert n in FirstBases(names);
        assert n in g.keys && n !in s.entries;
      }
    }
  }

  // ---------------------------------------------------------------------
  // The content of `generate`
  // ---------------------------------------------------------------------

  const RunnerLines := "class TranslatorRunner:\n    def get(self, path: str, **kwargs) -> str: ..."

  /** Every key in a group has a dash. */
  predicate GroupedOk(g: Dict<string, Dict<string, Params>>) {
    DictOk(g) &&
    forall b :: b in g.entries ==> DictOk(g.entries[b]) && forall n :: n in g.entries[b].entries ==> Compound(n)
  }

  /** One method per simple message. */
  function SimpleLines(s: Dict<string, Params>, ks: seq<string>): seq<string>
    requires forall k :: k in ks ==> k in s.entries
  {
    if ks == [] then []
    else SimpleLines(s, ks[..|ks| - 1]) + [Signature(ks[|ks| - 1], s.entries[ks[|ks| - 1]])]
  }

  /** One attribute per group. */
  function AttributeLines(bases: seq<string>): seq<string> {
    if bases == [] then []
    else AttributeLines(bases[..|bases| - 1]) + ["    " + bases[|bases| - 1] + ": " + ClassName(bases[|bases| - 1]) + "\n"]
  }

  /** A group's methods, each followed by an empty line. */
  function GroupLines(inner: Dict<string, Params>, ks: seq<string>): seq<string>
    requires forall k :: k in ks ==> k in inner.entries && Compound(k)
  {
    if ks == [] then []
    else
      var k := ks[|ks| - 1];
      GroupLines(inner, ks[..|ks| - 1]) + [Signature(MethodName(k), inner.entries[k]), ""]
  }

  function ClassBlock(g: Dict<string, Dict<string, Params>>, b: string): seq<string>
    requires GroupedOk(g) && b in g.entries
  {
    ["class " + ClassName(b) + ":"] + GroupLines(g.entries[b], g.entries[b].keys)
  }

  /** One class per group. */
  function ClassBlocks(g: Dict<string, Dict<string, Params>>, bases: seq<string>): seq<string>
    requires GroupedOk(g) && forall b :: b in bases ==> b in g.entries
  {
    if bases == [] then []
    else ClassBlocks(g, bases[..|bases| - 1]) + ClassBlock(g, bases[|bases| - 1])
  }

  /** The `content` list: the runner, its methods, its attributes, then the classes. */
  function ContentLines(g: Dict<string, Dict<string, Params>>, s: Dict<string, Params>): seq<string>
    requires GroupedOk(g) && DictOk(s)
  {
    [RunnerLines] + (SimpleLines(s, s.keys) + AttributeLines(g.keys) + ClassBlocks(g, g.keys))
  }

  lemma GroupedIsOk(names: seq<string>, ms: map<string, Params>)
    requires NoDup(names) && forall n :: n in names ==> n in ms
    ensures GroupedOk(Grouped(names, ms)) && DictOk(Simple(names, ms))
  {
    SimpleShape(names, ms);
    GroupedShape(names, ms);
    GroupedInner(names, ms);
    GroupPartition(names, ms);
  }

  /** What `generate` writes for the collected messages, or the error it raises. */
  function GenerateText(messages: Dict<string, Params>): (r: Result<string, GeneratorError>)
    requires DictOk(messages)
  {
    GroupedIsOk(messages.keys, messages.entries);
    var g := Grouped(messages.keys, messages.entries);
    var s := Simple(messages.keys, messages.entries);
    match FirstConflict(g.keys, g, s)
    case Some(e) => Failure(e)
    case None => Success(Join(ContentLines(g, s), "\n"))
  }

  lemma JoinFront(first: string, rest: seq<string>, sep: string)
    ensures Join([first] + rest, sep) == if rest == [] then first else first + sep + Join(rest, sep)
  {
    assert ([first] + rest)[1..] == rest;
  }

  /** A joined list starts with its first item. */
  lemma JoinStartsWith(first: string, rest: seq<string>, sep: string)
    ensures var t := Join([first] + rest, sep); |t| >= |first| && t[..|first|] == first
  {
    JoinFront(first, rest, sep);
    if rest != [] {
      TakeFront(first, sep + Join(rest, sep));
      AppendAssoc(first, sep, Join(rest, sep));
    }
  }

  lemma GenerateTextIs(messages: Dict<string, Params>)
    requires DictOk(messages)
    ensures GroupedOk(Grouped(messages.keys, messages.entries)) && DictOk(Simple(messages.keys, messages.entries))
    ensures var r := GenerateText(messages);
            r.Success? ==> r.value == Join(ContentLines(Grouped(messages.keys, messages.entries),
                                                        Simple(messages.keys, messages.entries)), "\n")
  {
    GroupedIsOk(messages.keys, messages.entries);
  }

  /** The file text starts with the runner class and its `get` method. */
  lemma TextStartsWithRunner(messages: Dict<string, Params>)
    requires DictOk(messages)
    ensures var r := GenerateText(messages);
            r.Success? ==> |r.value| >= |RunnerLines| && r.value[..|RunnerLines|] == RunnerLines
  {
    GenerateTextIs(messages);
    var g := Grouped(messages.keys, messages.entries);
    var s := Simple(messages.keys, messages.entries);
    JoinStartsWith(RunnerLines, SimpleLines(s, s.keys) + AttributeLines(g.keys) + ClassBlocks(g, g.keys), "\n");
  }

  lemma SimpleLinesStep(s: Dict<string, Params>, ks: seq<string>, i: nat)
    requires i < |ks| && forall k :: k in ks ==> k in s.entries
    ensures SimpleLines(s, ks[..i + 1]) == SimpleLines(s, ks[..i]) + [Signature(ks[i], s.entries[ks[i]])]
  {
    assert ks[..i + 1][..i] == ks[..i];
  }

  lemma AttributeLinesStep(bases: seq<string>, i: nat)
    requires i < |bases|
    ensures AttributeLines(bases[..i + 1]) == AttributeLines(bases[..i]) + ["    " + bases[i] + ": " + ClassName(bases[i]) + "\n"]
  {
    assert bases[..i + 1][..i] == bases[..i];
  }

  lemma GroupLinesStep(inner: Dict<string, Params>, ks: seq<string>, j: nat)
    requires j < |ks| && forall k :: k in ks ==> k in inner.entries && Compound(k)
    ensures GroupLines(inner, ks[..j + 1]) == GroupLines(inner, ks[..j]) + [Signature(MethodName(ks[j]), inner.entries[ks[j]]), ""]
  {
    assert ks[..j + 1][..j] == ks[..j];
  }

  lemma ClassBlocksStep(g: Dict<string, Dict<string, Params>>, bases: seq<string>, i: nat)
    requires GroupedOk(g) && i < |bases| && forall b :: b in bases ==> b in g.entries
    ensures ClassBlocks(g, bases[..i + 1]) == ClassBlocks(g, bases[..i]) + ClassBlock(g, bases[i])
  {
    assert bases[..i + 1][..i] == bases[..i];
  }

  method AppendSimple(front: seq<string>, simple: Dict<string, Params>) returns (content: seq<string>)
    requires DictOk(simple)
    ensures content == front + SimpleLines(simple, simple.keys)
  {
    content := front;
    var i := 0;
    while i < |simple.keys|
      invariant 0 <= i <= |simple.keys|
      invariant content == front + SimpleLines(simple, simple.keys[..i])
    {
      var name := simple.keys[i];
      var line := Signature(name, simple.entries[name]);
      SimpleLinesStep(simple, simple.keys, i);
      AppendAssoc(front, SimpleLines(simple, simple.keys[..i]), [line]);
      content := content + [line];
      i := i + 1;
    }
    assert simple.keys[..i] == simple.keys;
  }

  method AppendAttributes(front: seq<string>, bases: seq<string>) returns (content: seq<string>)
    ensures content == front + AttributeLines(bases)
  {
    content := front;
    var i := 0;
    while i < |bases|
      invariant 0 <= i <= |bases|
      invariant content == front + AttributeLines(bases[..i])
    {
      var line := "    " + bases[i] + ": " + ClassName(bases[i]) + "\n";
      AttributeLinesStep(bases, i);
      AppendAssoc(front, AttributeLines(bases[..i]), [line]);
      content := content + [line];
      i := i + 1;
    }
    assert bases[..i] == bases;
  }

  method AppendGroup(front: seq<string>, inner: Dict<string, Params>) returns (content: seq<string>)
    requires DictOk(inner) && forall n :: n in inner.entries ==> Compound(n)
    ensures content == front + GroupLines(inner, inner.keys)
  {
    content := front;
    var j := 0;
    while j < |inner.keys|
      invariant 0 <= j <= |inner.keys|
      invariant content == front + GroupLines(inner, inner.keys[..j])
    {
      var name := inner.keys[j];
      var line := Signature(MethodName(name), inner.entries[name]);
      GroupLinesStep(inner, inner.keys, j);
      AppendAssoc(front, GroupLines(inner, inner.keys[..j]), [line, ""]);
      content := content + [line, ""];
      j := j + 1;
    }
    assert inner.keys[..j] == inner.keys;
  }

  method AppendClasses(front: seq<string>, grouped: Dict<string, Dict<string, Params>>) returns (content: seq<string>)
    requires GroupedOk(grouped)
    ensures content == front + ClassBlocks(grouped, grouped.keys)
  {
    content := front;
    var i := 0;
    while i < |grouped.keys|
      invariant 0 <= i <= |grouped.keys|
      invariant content == front + ClassBlocks(grouped, grouped.keys[..i])
    {
      var baseName := grouped.keys[i];
      var header := "class " + ClassName(baseName) + ":";
      ghost var before := content;
      content := AppendGroup(content + [header], grouped.entries[baseName]);
      AppendAssoc(before, [header], GroupLines(grouped.entries[baseName], grouped.entries[baseName].keys));
      ClassBlocksStep(grouped, grouped.keys, i);
      AppendAssoc(front, ClassBlocks(grouped, grouped.keys[..i]), ClassBlock(grouped, baseName));
      i := i + 1;
    }
    assert grouped.keys[..i] == grouped.keys;
  }

  /** The assembly of `content` in `generate`. */
  method AssembleContent(grouped: Dict<string, Dict<string, Params>>, simple: Dict<string, Params>) returns (content: seq<string>)
    requires GroupedOk(grouped) && DictOk(simple)
    ensures content == ContentLines(grouped, simple)
  {
    content := AppendSimple([RunnerLines], simple);
    content := AppendAttributes(content, grouped.keys);
    content := AppendClasses(content, grouped);
    AppendAssoc([RunnerLines], SimpleLines(simple, simple.keys), AttributeLines(grouped.keys));
    AppendAssoc([RunnerLines], SimpleLines(simple, simple.keys) + AttributeLines(grouped.keys), ClassBlocks(grouped, grouped.keys));
  }

  // ---------------------------------------------------------------------
  // `Generator`
  // ---------------------------------------------------------------------

  class Generator {
    const outputFile: string
    const files: set<string>
    var messages: Dict<string, Params>

    predicate Valid()
      reads this
    {
      DictOk(messages)
    }

    constructor (outputFile: string, files: set<string>)
      ensures this.outputFile == outputFile && this.files == files
      ensures messages == Dict([], map[]) && Valid()
    {
      this.outputFile := outputFile;
      this.files := files;
      messages := Dict([], map[]);
    }

    /** `generate`: every file's messages merged, in the order the files are
        visited, then the grouped text or the conflict.  `catalogOf` stands
        for reading a file and `get_messages`; writing the file is left to the caller.
        This is the corrected `generate`: each message contributes its placeholder
        names, where the code as written stores the `Message` record itself
        (see `GenerateAsWritten` and `AsWrittenOnRecords`). */
    method Generate(order: seq<string>, catalogOf: string -> Dict<string, Params>) returns (r: Result<string, GeneratorError>)
      requires Valid() && NoDup(order) && forall f :: f in order <==> f in files
      requires forall f :: f in order ==> DictOk(catalogOf(f))
      modifies this
      ensures Valid() && messages == AfterFiles(old(messages), order, catalogOf)
      ensures r == GenerateText(messages)
    {
      var i := 0;
      while i < |order|
        invariant 0 <= i <= |order|
        invariant Valid() && messages == AfterFiles(old(messages), order[..i], catalogOf)
      {
        assert order[..i + 1][..i] == order[..i];
        UpdateIsUnion(messages, catalogOf(order[i]));
        messages := Update(messages, catalogOf(order[i]));
        i := i + 1;
      }
      assert order[..i] == order;
      var grouped, simple := GroupMessages(messages);
      GroupedIsOk(messages.keys, messages.entries);
      var conflict := CheckForConflict(grouped, simple);
      if conflict.Some? {
        return Failure(conflict.value);
      }
      var content := AssembleContent(grouped, simple);
      r := Success(Join(content, "\n"));
    }
  }

  /** The messages after the files `order` have been read into `d`. */
  function AfterFiles(d: Dict<string, Params>, order: seq<string>, catalogOf: string -> Dict<string, Params>): Dict<string, Params>
    requires forall f :: f in order ==> DictOk(catalogOf(f))
  {
    if order == [] then d
    else Update(AfterFiles(d, order[..|order| - 1], catalogOf), catalogOf(order[|order| - 1]))
  }

  /** A later file's message replaces an earlier one with the same key. */
  lemma {:induction false} AfterFilesUnion(d: Dict<string, Params>, order: seq<string>, catalogOf: string -> Dict<string, Params>)
    requires DictOk(d) && forall f :: f in order ==> DictOk(catalogOf(f))
    ensures DictOk(AfterFiles(d, order, catalogOf))
    ensures order != [] ==>
              AfterFiles(d, order, catalogOf).entries ==
              AfterFiles(d, order[..|order| - 1], catalogOf).entries + catalogOf(order[|order| - 1]).entries
    ensures forall k :: k in d.entries ==> k in AfterFiles(d, order, catalogOf).entries
    decreases |order|
  {
    if order != [] {
      AfterFilesUnion(d, order[..|order| - 1], catalogOf);
      UpdateIsUnion(AfterFiles(d, order[..|order| - 1], catalogOf), catalogOf(order[|order| - 1]));
    }
  }

  // ---------------------------------------------------------------------
  // `generate` as written
  // ---------------------------------------------------------------------

  /** A value `generate` can hold for a key: the set of parameter names
      the signature code expects, or the `Message` record that
      `get_messages` actually returns (generator.py:79-80). */
  datatype ParamsValue = Names(names: Params) | Record(message: StubParser.Message)

  /** The parameter names a value stands for: the names themselves, or a
      record's placeholders, which the signature evidently means to list. */
  function IntendedParams(v: ParamsValue): Params {
    match v
    case Names(ns) => ns
    case Record(m) => m.placeholders
  }

  /** The messages with every value replaced by the names it stands for. */
  function Intended(d: Dict<string, ParamsValue>): (r: Dict<string, Params>)
    ensures r.keys == d.keys && r.entries.Keys == d.entries.Keys
    ensures forall k :: k in d.entries ==> r.entries[k] == IntendedParams(d.entries[k])
    ensures DictOk(d) ==> DictOk(r)
  {
    Dict(d.keys, map k | k in d.entries :: IntendedParams(d.entries[k]))
  }

  /** `self.messages` after `update` with what `get_messages` returns: each key holds its record. */
  function AsRecords(d: Dict<string, StubParser.Message>): (r: Dict<string, ParamsValue>)
    ensures r.keys == d.keys && r.entries.Keys == d.entries.Keys
    ensures forall k :: k in r.entries ==> r.entries[k] == Record(d.entries[k])
    ensures DictOk(d) ==> DictOk(r)
  {
    Dict(d.keys, map k | k in d.entries :: Record(d.entries[k]))
  }

  /** The messages as the signature code expects them: each key holds its parameter names. */
  function AsNames(d: Dict<string, Params>): (r: Dict<string, ParamsValue>)
    ensures r.keys == d.keys && r.entries.Keys == d.entries.Keys
    ensures forall k :: k in r.entries ==> r.entries[k] == Names(d.entries[k])
    ensures DictOk(d) ==> DictOk(r)
    ensures Intended(r) == d
  {
    var r := Dict(d.keys, map k | k in d.entries :: Names(d.entries[k]));
    assert Intended(r).entries == d.entries;
    r
  }

  /** `_generate_method_signature` on a held value, as written.  `not params`
      holds only for an empty set of names: a `Message` is a dataclass
      without `__len__`, so it is always true, and `sorted` of it raises
      TypeError because it is not iterable. */
  function SignatureAsWritten(name: string, v: ParamsValue): (r: Result<string, GeneratorError>)
    ensures r.Failure? <==> v.Record?
    ensures r.Failure? ==> r.error == TypeError
    ensures v.Names? ==> r == Success(Signature(name, v.names))
  {
    match v
    case Names(ns) => Success(Signature(name, ns))
    case Record(_) => Failure(TypeError)
  }

  /** The loop over the simple messages, stopped by the first signature that raises. */
  function SimpleLinesAsWritten(ks: seq<string>, args: map<string, ParamsValue>): Result<seq<string>, GeneratorError>
    requires forall k :: k in ks ==> k in args
  {
    if ks == [] then Success([])
    else
      var k := ks[|ks| - 1];
      var front :- SimpleLinesAsWritten(ks[..|ks| - 1], args);
      var line :- SignatureAsWritten(k, args[k]);
      Success(front + [line])
  }

  /** The inner loop over one group, stopped by the first signature that raises. */
  function GroupLinesAsWritten(ks: seq<string>, args: map<string, ParamsValue>): Result<seq<string>, GeneratorError>
    requires forall k :: k in ks ==> k in args && Compound(k)
  {
    if ks == [] then Success([])
    else
      var k := ks[|ks| - 1];
      var front :- GroupLinesAsWritten(ks[..|ks| - 1], args);
      var line :- SignatureAsWritten(MethodName(k), args[k]);
      Success(front + [line, ""])
  }

  /** The outer loop over the groups, stopped by the first signature that raises. */
  function ClassBlocksAsWritten(g: Dict<string, Dict<string, Params>>, bases: seq<string>, args: map<string, ParamsValue>): Result<seq<string>, GeneratorError>
    requires GroupedOk(g) && forall b :: b in bases ==> b in g.entries
    requires forall b, k :: b in g.entries && k in g.entries[b].entries ==> k in args
  {
    if bases == [] then Success([])
    else
      var b := bases[|bases| - 1];
      var front :- ClassBlocksAsWritten(g, bases[..|bases| - 1], args);
      var lines :- GroupLinesAsWritten(g.entries[b].keys, args);
      Success(front + (["class " + ClassName(b) + ":"] + lines))
  }

  /** What the as-written loops need of the grouping: well-formed dicts, and only message keys in them. */
  lemma GroupingFacts(names: seq<string>, ms: map<string, Params>)
    requires NoDup(names) && forall n :: n in names ==> n in ms
    ensures GroupedOk(Grouped(names, ms)) && DictOk(Simple(names, ms))
    ensures forall k :: k in Simple(names, ms).keys ==> k in names
    ensures forall b, k :: b in Grouped(names, ms).entries && k in Grouped(names, ms).entries[b].entries ==> k in names
  {
    GroupedIsOk(names, ms);
    SimpleKeysFromNames(names, ms);
    GroupKeysFromNames(names, ms);
  }

  lemma SimpleKeysFromNames(names: seq<string>, ms: map<string, Params>)
    requires NoDup(names) && forall n :: n in names ==> n in ms
    ensures forall k :: k in Simple(names, ms).keys ==> k in names
  {
    SimpleShape(names, ms);
    var ks := SimpleKeys(names);
    assert forall k :: k in ks ==> k in names;
  }

  lemma GroupKeysFromNames(names: seq<string>, ms: map<string, Params>)
    requires NoDup(names) && forall n :: n in names ==> n in ms
    ensures forall b, k :: b in Grouped(names, ms).entries && k in Grouped(names, ms).entries[b].entries ==> k in names
  {
    GroupedInner(names, ms);
    var g := Grouped(names, ms);
    forall b, k | b in g.entries && k in g.entries[b].entries ensures k in names {
      assert GroupIs(g.entries[b], GroupKeys(names, b), ms);
      assert k in GroupKeys(names, b);
    }
  }

  /** `generate` as written, once the messages are read: the keys are
      grouped and checked for a conflict, then every held value goes to
      `_generate_method_signature`. */
  function GenerateAsWritten(messages: Dict<string, ParamsValue>): Result<string, GeneratorError>
    requires DictOk(messages)
  {
    var ms := Intended(messages).entries;
    GroupingFacts(messages.keys, ms);
    var g := Grouped(messages.keys, ms);
    var s := Simple(messages.keys, ms);
    match FirstConflict(g.keys, g, s)
    case Some(e) => Failure(e)
    case None =>
      var simple :- SimpleLinesAsWritten(s.keys, messages.entries);
      var classes :- ClassBlocksAsWritten(g, g.keys, messages.entries);
      Success(Join([RunnerLines] + (simple + AttributeLines(g.keys) + classes), "\n"))
  }

  lemma {:induction false} SimpleLinesOnNames(s: Dict<string, Params>, ks: seq<string>, args: map<string, ParamsValue>)
    requires forall k :: k in ks ==> k in s.entries && k in args && args[k] == Names(s.entries[k])
    ensures SimpleLinesAsWritten(ks, args) == Success(SimpleLines(s, ks))
    decreases |ks|
  {
    if ks != [] {
      SimpleLinesOnNames(s, ks[..|ks| - 1], args);
    }
  }

  lemma {:induction false} GroupLinesOnNames(inner: Dict<string, Params>, ks: seq<string>, args: map<string, ParamsValue>)
    requires forall k :: k in ks ==> k in inner.entries && Compound(k) && k in args && args[k] == Names(inner.entries[k])
    ensures GroupLinesAsWritten(ks, args) == Success(GroupLines(inner, ks))
    decreases |ks|
  {
    if ks != [] {
      GroupLinesOnNames(inner, ks[..|ks| - 1], args);
    }
  }

  lemma {:induction false} ClassBlocksOnNames(g: Dict<string, Dict<string, Params>>, bases: seq<string>, args: map<string, ParamsValue>)
    requires GroupedOk(g) && forall b :: b in bases ==> b in g.entries
    requires forall b, k :: b in g.entries && k in g.entries[b].entries ==> k in args && args[k] == Names(g.entries[b].entries[k])
    ensures ClassBlocksAsWritten(g, bases, args) == Success(ClassBlocks(g, bases))
    decreases |bases|
  {
    if bases != [] {
      var b := bases[|bases| - 1];
      ClassBlocksOnNames(g, bases[..|bases| - 1], args);
      ClassBlockOnNames(g, b, args);
    }
  }

  lemma ClassBlockOnNames(g: Dict<string, Dict<string, Params>>, b: string, args: map<string, ParamsValue>)
    requires GroupedOk(g) && b in g.entries
    requires forall b, k :: b in g.entries && k in g.entries[b].entries ==> k in args && args[k] == Names(g.entries[b].entries[k])
    ensures GroupLinesAsWritten(g.entries[b].keys, args) == Success(GroupLines(g.entries[b], g.entries[b].keys))
  {
    var inner := g.entries[b];
    assert forall k :: k in inner.keys ==> k in inner.entries && Compound(k) && k in args && args[k] == Names(inner.entries[k]);
    GroupLinesOnNames(inner, inner.keys, args);
  }

  /** Given sets of names, as the signature code expects, the code as
      written writes exactly the text of the corrected `generate`. */
  lemma AsWrittenOnNames(p: Dict<string, Params>)
    requires DictOk(p)
    ensures GenerateAsWritten(AsNames(p)) == GenerateText(p)
  {
    var ms := p.entries;
    GroupedIsOk(p.keys, ms);
    SimpleShape(p.keys, ms);
    GroupedInner(p.keys, ms);
    var g := Grouped(p.keys, ms);
    var s := Simple(p.keys, ms);
    SimpleLinesOnNames(s, s.keys, AsNames(p).entries);
    ClassBlocksOnNames(g, g.keys, AsNames(p).entries);
  }

  lemma {:induction false} SimpleLinesFailOnRecords(ks: seq<string>, args: map<string, ParamsValue>)
    requires ks != [] && forall k :: k in ks ==> k in args && args[k].Record?
    ensures SimpleLinesAsWritten(ks, args) == Failure(TypeError)
    decreases |ks|
  {
    if |ks| > 1 {
      SimpleLinesFailOnRecords(ks[..|ks| - 1], args);
    }
  }

  lemma {:induction false} GroupLinesFailOnRecords(ks: seq<string>, args: map<string, ParamsValue>)
    requires ks != [] && forall k :: k in ks ==> k in args && Compound(k) && args[k].Record?
    ensures GroupLinesAsWritten(ks, args) == Failure(TypeError)
    decreases |ks|
  {
    if |ks| > 1 {
      GroupLinesFailOnRecords(ks[..|ks| - 1], args);
    }
  }

  lemma {:induction false} ClassBlocksFailOnRecords(g: Dict<string, Dict<string, Params>>, bases: seq<string>, args: map<string, ParamsValue>)
    requires GroupedOk(g) && bases != [] && forall b :: b in bases ==> b in g.entries && g.entries[b].keys != []
    requires forall b, k :: b in g.entries && k in g.entries[b].entries ==> k in args && args[k].Record?
    ensures ClassBlocksAsWritten(g, bases, args) == Failure(TypeError)
    decreases |bases|
  {
    var b := bases[|bases| - 1];
    if |bases| > 1 {
      ClassBlocksFailOnRecords(g, bases[..|bases| - 1], args);
    } else {
      GroupLinesFailOnRecords(g.entries[b].keys, args);
    }
  }

  /** Some key without a dash is the first segment of a key with one. */
  predicate Conflicting(names: seq<string>) {
    exists n, m :: n in names && m in names && !Compound(n) && Compound(m) && BaseName(m) == n
  }

  /** `generate` as written, on the `Message` records lines 79-80 store: a
      conflict is reported as the corrected code reports it, an empty
      catalog gives the runner class alone, and every other catalog
      raises TypeError. */
  lemma AsWrittenOnRecords(d: Dict<string, StubParser.Message>)
    requires DictOk(d)
    ensures var r := GenerateAsWritten(AsRecords(d));
            (Conflicting(d.keys) ==> r.Failure? && r.error.KeyConflict? && r == GenerateText(Intended(AsRecords(d)))) &&
            (!Conflicting(d.keys) && d.keys != [] ==> r == Failure(TypeError)) &&
            (d.keys == [] ==> r == Success(RunnerLines))
  {
    if Conflicting(d.keys) {
      AsWrittenConflict(d);
    } else if d.keys != [] {
      AsWrittenTypeError(d);
    } else {
      AsWrittenEmpty(d);
    }
  }

  lemma AsWrittenConflict(d: Dict<string, StubParser.Message>)
    requires DictOk(d) && Conflicting(d.keys)
    ensures var r := GenerateAsWritten(AsRecords(d));
            r.Failure? && r.error.KeyConflict? && r == GenerateText(Intended(AsRecords(d)))
  {
    var ms := Intended(AsRecords(d)).entries;
    ConflictExactly(d.keys, ms);
  }

  lemma AsWrittenEmpty(d: Dict<string, StubParser.Message>)
    requires DictOk(d) && d.keys == []
    ensures GenerateAsWritten(AsRecords(d)) == Success(RunnerLines)
  {
    assert [RunnerLines] + ([] + AttributeLines([]) + []) == [RunnerLines];
  }

  lemma AsWrittenTypeError(d: Dict<string, StubParser.Message>)
    requires DictOk(d) && !Conflicting(d.keys) && d.keys != []
    ensures GenerateAsWritten(AsRecords(d)) == Failure(TypeError)
  {
    var messages := AsRecords(d);
    var names := d.keys;
    var ms := Intended(messages).entries;
    ConflictExactly(names, ms);
    GroupingFacts(names, ms);
    var g := Grouped(names, ms);
    var s := Simple(names, ms);
    if s.keys != [] {
      SimpleLinesFailOnRecords(s.keys, messages.entries);
    } else {
      AllCompoundGroups(names, ms);
      ClassBlocksFailOnRecords(g, g.keys, messages.entries);
    }
  }

  /** Without a key free of dashes, there is a group and no group is empty. */
  lemma AllCompoundGroups(names: seq<string>, ms: map<string, Params>)
    requires NoDup(names) && names != [] && forall n :: n in names ==> n in ms
    requires Simple(names, ms).keys == []
    ensures var g := Grouped(names, ms);
            g.keys != [] && forall b :: b in g.keys ==> b in g.entries && g.entries[b].keys != []
  {
    SimpleShape(names, ms);
    GroupedShape(names, ms);
    GroupedInner(names, ms);
    var g := Grouped(names, ms);
    assert Compound(names[0]);
    assert BaseName(names[0]) in FirstBases(names);
    forall b | b in g.keys ensures b in g.entries && g.entries[b].keys != [] {
      assert b in FirstBases(names);
      var n :| n in names && Compound(n) && BaseName(n) == b;
      assert GroupIs(g.entries[b], GroupKeys(names, b), ms);
      assert n in GroupKeys(names, b);
    }
  }

  /** The names fluentogram/exceptions.py defines. */
  const ExceptionsNames: set<string> :=
    {"FluentogramError", "RootTranslatorNotFoundError", "KeyNotFoundError", "FormatError", "LocalesNotFoundError"}

  /** `from module import name`, for a module that defines `defined`. */
  function ImportFrom(defined: set<string>, name: string): (r: Option<GeneratorError>)
    ensures r.None? <==> name in defined
    ensures r.Some? ==> r.value == ImportError(name)
  {
    if name in defined then None else Some(ImportError(name))
  }

  /** Line 5 read against fluentogram/exceptions.py: the exception it
      imports is not defined there, so loading the module fails and neither
      `Generator` nor `generate` can run.  Every name the rest of the current
      code and its tests import from `fluentogram.exceptions` is defined
      there; NotImplementedRootLocaleTranslator, which the `fluentogram.src`
      hubs import, is not. */
  lemma ImportAsWritten()
    ensures ImportFrom(ExceptionsNames, "StubGeneratorKeyConflictError") == Some(ImportError("StubGeneratorKeyConflictError"))
    ensures forall n :: n in ["RootTranslatorNotFoundError", "KeyNotFoundError", "LocalesNotFoundError", "FormatError"] ==> ImportFrom(ExceptionsNames, n).None?
    ensures ImportFrom(ExceptionsNames, "NotImplementedRootLocaleTranslator") == Some(ImportError("NotImplementedRootLocaleTranslator"))
  {
    assert "StubGeneratorKeyConflictError" !in ExceptionsNames;
    assert "NotImplementedRootLocaleTranslator" !in ExceptionsNames;
  }

  /** `Generator(output_file, file_path, directory)`; `globbed` stands for the
      directory's `*.ftl` files. */
  method NewGenerator(outputFile: string, filePath: Option<string>, directory: Option<string>, globbed: set<string>)
    returns (r: Result<Generator, GeneratorError>)
    ensures r.Failure? <==> Validate(outputFile, filePath, directory).Some?
    ensures r.Failure? ==> r.error == Validate(outputFile, filePath, directory).value
    ensures r.Success? ==> fresh(r.value) && r.value.Valid() && r.value.outputFile == outputFile
                           && r.value.files == Files(filePath, directory, globbed)
                           && r.value.messages == Dict([], map[])
  {
    var check := Validate(outputFile, filePath, directory);
    if check.Some? {
      return Failure(check.value);
    }
    var g := new Generator(outputFile, Files(filePath, directory, globbed));
    return Success(g);
  }
}
