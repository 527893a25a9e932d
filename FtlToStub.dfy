/** fluentogram/cli/ftl_to_stub.py: the oldest stub generator.

    The flat `key -> text` items become a nested dict (one level per
    segment of the key), which is then rendered class by class.  A dict in
    insertion order is a sequence of entries; the dicts are created by the
    builder and never shared, so updating them in place is modelled as
    building the updated value. */
module FtlToStub {
  import opened Wrappers
  import opened Text
  import opened Dicts

  /** A value of the nested dict: a translation text, or a dict. */
  datatype Nested = Str(text: string) | Mapping(items: seq<Entry>)
  datatype Entry = Entry(key: string, value: Nested)

  type Path = seq<string>

  /** What the code raises. */
  datatype Error =
    | NotADict(key: string)   // AttributeError: a str has no `setdefault`
    | Exhausted               // StopIteration from `next`
    | EmptySeparator          // ValueError from `split("")`
    | EmptyName               // IndexError from `string[0]`

  // ---------------------------------------------------------------------
  // Dicts of entries
  // ---------------------------------------------------------------------

  /** `d.get(k)`. */
  function Get(items: seq<Entry>, k: string): (r: Option<Nested>)
    ensures r.Some? <==> exists i :: 0 <= i < |items| && items[i].key == k
  {
    if items == [] then None
    else if items[0].key == k then Some(items[0].value)
    else Get(items[1..], k)
  }

  /** `d[k] = v`: an existing key keeps its place, a new one goes last. */
  function Assign(items: seq<Entry>, k: string, v: Nested): (r: seq<Entry>)
    ensures Get(r, k) == Some(v)
    ensures forall x :: x != k ==> Get(r, x) == Get(items, x)
  {
    if items == [] then [Entry(k, v)]
    else if items[0].key == k then [Entry(k, v)] + items[1..]
    else
      var rest := Assign(items[1..], k, v);
      assert forall x :: x != items[0].key ==> Get([items[0]] + rest, x) == Get(rest, x);
      [items[0]] + rest
  }

  /** `d.setdefault(k, v)`: the dict, and the value now under `k`. */
  function SetDefault(items: seq<Entry>, k: string, v: Nested): (r: (seq<Entry>, Nested))
    ensures Get(r.0, k) == Some(r.1)
    ensures Get(items, k).Some? ==> r == (items, Get(items, k).value)
    ensures Get(items, k).None? ==> r == (items + [Entry(k, v)], v)
    ensures forall x :: x != k ==> Get(r.0, x) == Get(items, x)
  {
    match Get(items, k)
    case Some(prev) => (items, prev)
    case None => GetAppend(items, k, v); (items + [Entry(k, v)], v)
  }

  lemma {:induction false} GetAppend(items: seq<Entry>, k: string, v: Nested)
    requires Get(items, k).None?
    ensures Get(items + [Entry(k, v)], k) == Some(v)
    ensures forall x :: x != k ==> Get(items + [Entry(k, v)], x) == Get(items, x)
    decreases |items|
  {
    if items != [] {
      assert (items + [Entry(k, v)])[1..] == items[1..] + [Entry(k, v)];
      GetAppend(items[1..], k, v);
    }
  }

  /** The value reached by following `p` from the dict `items`. */
  function Walk(items: seq<Entry>, p: Path): Option<Nested>
    decreases |p|
  {
    if p == [] then None
    else match Get(items, p[0])
    case None => None
    case Some(v) =>
      if |p| == 1 then Some(v)
      else if v.Mapping? then Walk(v.items, p[1..])
      else None
  }

  // ---------------------------------------------------------------------
  // _build_nested_dict and _raw_items_to_nested_dict
  // ---------------------------------------------------------------------

  /** `_build_nested_dict(data, items_iterator, *segs)`: the new dict and what
      is left of the shared iterator.  Every step first `setdefault`s an empty
      dict; the last segment then takes the next value of the iterator. */
  function Insert(items: seq<Entry>, segs: Path, vals: seq<string>): (r: Result<(seq<Entry>, seq<string>), Error>)
    requires segs != []
    ensures r.Success? ==> |vals| > 0 && r.value.1 == vals[1..] && Walk(r.value.0, segs) == Some(Str(vals[0]))
    decreases |segs|
  {
    var (items1, value) := SetDefault(items, segs[0], Mapping([]));
    if |segs| > 1 then
      if value.Str? then Failure(NotADict(segs[0]))
      else
        var (sub, rest) :- Insert(value.items, segs[1..], vals);
        var r := Assign(items1, segs[0], Mapping(sub));
        assert Get(r, segs[0]) == Some(Mapping(sub));
        Success((r, rest))
    else if vals == [] then Failure(Exhausted)
    else Success((Assign(items1, segs[0], Str(vals[0])), vals[1..]))
  }

  /** The loop of `_raw_items_to_nested_dict` from `data`, for the key
      segments `paths` and the rest `vals` of the iterator. */
  function BuildFrom(data: seq<Entry>, paths: seq<Path>, vals: seq<string>): Result<seq<Entry>, Error>
    requires forall i :: 0 <= i < |paths| ==> paths[i] != []
    decreases |paths|
  {
    if paths == [] then Success(data)
    else
      var (data1, rest) :- Insert(data, paths[0], vals);
      BuildFrom(data1, paths[1..], rest)
  }

  /** `items.values()`, in key order. */
  function Values(items: Dict<string, string>): (r: seq<string>)
    requires DictOk(items)
    ensures |r| == |items.keys| && forall i :: 0 <= i < |r| ==> r[i] == items.entries[items.keys[i]]
  {
    seq(|items.keys|, i requires 0 <= i < |items.keys| => items.entries[items.keys[i]])
  }

  /** Every key split on the separator. */
  function Paths(keys: seq<string>, separator: string): (r: seq<Path>)
    requires separator != ""
    ensures |r| == |keys| && forall i :: 0 <= i < |r| ==> r[i] == Split(keys[i], separator) && r[i] != []
  {
    seq(|keys|, i requires 0 <= i < |keys| => Split(keys[i], separator))
  }

  /** What `_raw_items_to_nested_dict(items, separator)` returns or raises. */
  function NestedDict(items: Dict<string, string>, separator: string): Result<seq<Entry>, Error>
    requires DictOk(items)
  {
    if separator == "" then (if items.keys == [] then Success([]) else Failure(EmptySeparator))
    else BuildFrom([], Paths(items.keys, separator), Values(items))
  }

  /** `_raw_items_to_nested_dict`, with its loop and its shared iterator. */
  method RawItemsToNestedDict(items: Dict<string, string>, separator: string := "-") returns (r: Result<seq<Entry>, Error>)
    requires DictOk(items)
    ensures r == NestedDict(items, separator)
  {
    if separator == "" && items.keys != [] {
      return Failure(EmptySeparator);
    }
    if separator == "" {
      return Success([]);
    }
    var data: seq<Entry> := [];
    var remaining := Values(items);
    ghost var paths := Paths(items.keys, separator);
    var i := 0;
    while i < |items.keys|
      invariant 0 <= i <= |items.keys|
      invariant BuildFrom(data, paths[i..], remaining) == NestedDict(items, separator)
    {
      assert paths[i..][1..] == paths[i + 1..];
      var step := Insert(data, Split(items.keys[i], separator), remaining);
      if step.Failure? {
        return Failure(step.error);
      }
      data, remaining := step.value.0, step.value.1;
      i := i + 1;
    }
    assert paths[i..] == [];
    r := Success(data);
  }

  // ---------------------------------------------------------------------
  // What the builder keeps
  // ---------------------------------------------------------------------

  /** `p` and `q` do not lie on one path: neither is a prefix of the other. */
  predicate Apart(p: Path, q: Path) {
    !(p <= q) && !(q <= p)
  }

  /** Walking past a text reaches nothing. */
  lemma {:induction false} WalkStopsAtStr(items: seq<Entry>, q: Path, p: Path)
    requires q != [] && q < p && Walk(items, q).Some? && Walk(items, q).value.Str?
    ensures Walk(items, p) == None
    decreases |q|
  {
    assert p[0] == q[0];
    var v := Get(items, p[0]).value;
    if |q| > 1 {
      assert q[1..] < p[1..];
      WalkStopsAtStr(v.items, q[1..], p[1..]);
    }
  }

  /** The insertion leaves every path apart from `segs` as it was. */
  lemma {:induction false} InsertKeeps(items: seq<Entry>, segs: Path, vals: seq<string>, p: Path)
    requires segs != [] && Apart(p, segs) && Insert(items, segs, vals).Success?
    ensures Walk(Insert(items, segs, vals).value.0, p) == Walk(items, p)
    decreases |segs|
  {
    var (items1, value) := SetDefault(items, segs[0], Mapping([]));
    var r := Insert(items, segs, vals).value.0;
    if p[0] == segs[0] {
      assert |p| > 1 && |segs| > 1;
      var (sub, rest) := Insert(value.items, segs[1..], vals).value;
      assert r == Assign(items1, segs[0], Mapping(sub));
      assert Apart(p[1..], segs[1..]);
      InsertKeeps(value.items, segs[1..], vals, p[1..]);
      assert Walk(r, p) == Walk(sub, p[1..]);
      if Get(items, segs[0]).None? {
        NothingInEmpty(p[1..]);
      } else {
        assert Walk(items, p) == Walk(value.items, p[1..]);
      }
    } else {
      assert Get(r, p[0]) == Get(items, p[0]);
      WalkSameHead(r, items, p);
    }
  }

  /** Two dicts with the same value under `p[0]` lead `p` to the same place. */
  lemma WalkSameHead(x: seq<Entry>, y: seq<Entry>, p: Path)
    requires p != [] && Get(x, p[0]) == Get(y, p[0])
    ensures Walk(x, p) == Walk(y, p)
  {
  }

  lemma NothingInEmpty(p: Path)
    requires p != []
    ensures Walk([], p) == None
  {
  }

  /** After the insertion, every proper prefix of `segs` leads to a dict. */
  lemma {:induction false} InsertMakesTrees(items: seq<Entry>, segs: Path, vals: seq<string>, j: nat)
    requires segs != [] && 1 <= j < |segs| && Insert(items, segs, vals).Success?
    ensures Walk(Insert(items, segs, vals).value.0, segs[..j]).Some?
    ensures Walk(Insert(items, segs, vals).value.0, segs[..j]).value.Mapping?
    decreases |segs|
  {
    var (items1, value) := SetDefault(items, segs[0], Mapping([]));
    if j > 1 {
      InsertMakesTrees(value.items, segs[1..], vals, j - 1);
      assert segs[..j][1..] == segs[1..][..j - 1];
    }
  }

  /** The only new text is the one at `segs`. */
  lemma InsertTexts(items: seq<Entry>, segs: Path, vals: seq<string>, p: Path)
    requires segs != [] && Insert(items, segs, vals).Success?
    requires var w := Walk(Insert(items, segs, vals).value.0, p); w.Some? && w.value.Str?
    ensures p == segs || Walk(items, p) == Walk(Insert(items, segs, vals).value.0, p)
  {
    var r := Insert(items, segs, vals).value.0;
    if Apart(p, segs) {
      InsertKeeps(items, segs, vals, p);
    } else if p < segs {
      PrefixTake(p, segs);
      InsertMakesTrees(items, segs, vals, |p|);
    } else if segs < p {
      WalkStopsAtStr(r, segs, p);
    }
  }

  /** The insertion succeeds when a value is left and no proper prefix of
      `segs` leads to a text. */
  lemma {:induction false} InsertSucceeds(items: seq<Entry>, segs: Path, vals: seq<string>)
    requires segs != [] && vals != []
    requires forall j :: 1 <= j < |segs| ==> var w := Walk(items, segs[..j]); !(w.Some? && w.value.Str?)
    ensures Insert(items, segs, vals).Success?
    decreases |segs|
  {
    var (items1, value) := SetDefault(items, segs[0], Mapping([]));
    if |segs| > 1 {
      assert segs[..1] == [segs[0]];
      assert value.Mapping?;
      forall j | 1 <= j < |segs[1..]|
        ensures var w := Walk(value.items, segs[1..][..j]); !(w.Some? && w.value.Str?)
      {
        assert segs[..j + 1][1..] == segs[1..][..j];
        if Get(items, segs[0]).None? {
          NothingInEmpty(segs[1..][..j]);
        }
      }
      InsertSucceeds(value.items, segs[1..], vals);
    }
  }

  /** The converse of `InsertSucceeds`: when a proper prefix `segs[..j]`
      leads to a text, the descent reaches that text and fails on its
      `setdefault`. */
  lemma {:induction false} InsertFailsBelowText(items: seq<Entry>, segs: Path, vals: seq<string>, j: nat)
    requires 1 <= j < |segs|
    requires var w := Walk(items, segs[..j]); w.Some? && w.value.Str?
    ensures Insert(items, segs, vals) == Failure(NotADict(segs[j - 1]))
    decreases j
  {
    var (items1, value) := SetDefault(items, segs[0], Mapping([]));
    assert segs[..j][0] == segs[0];
    if j > 1 {
      assert value.Mapping?;
      assert segs[..j][1..] == segs[1..][..j - 1];
      InsertFailsBelowText(value.items, segs[1..], vals, j - 1);
    }
  }

  /** `_build_nested_dict` succeeds exactly when a value is left and no
      proper prefix of the key's segments leads to a text. */
  lemma InsertOutcome(items: seq<Entry>, segs: Path, vals: seq<string>)
    requires segs != []
    ensures Insert(items, segs, vals).Success? <==>
      vals != [] && forall j :: 1 <= j < |segs| ==> var w := Walk(items, segs[..j]); !(w.Some? && w.value.Str?)
  {
    if exists j :: 1 <= j < |segs| && var w := Walk(items, segs[..j]); w.Some? && w.value.Str? {
      var j :| 1 <= j < |segs| && var w := Walk(items, segs[..j]); w.Some? && w.value.Str?;
      InsertFailsBelowText(items, segs, vals, j);
    } else if vals != [] {
      InsertSucceeds(items, segs, vals);
    }
  }

  /** No key's segments are a prefix of another key's. */
  predicate NoConflict(paths: seq<Path>) {
    forall i, j :: 0 <= i < |paths| && 0 <= j < |paths| && i != j ==> !(paths[i] <= paths[j])
  }

  /** The dict holds every earlier key's value at its path, and texts nowhere else. */
  ghost predicate Holds(data: seq<Entry>, done: seq<Path>, doneVals: seq<string>) {
    |done| == |doneVals|
    && (forall i :: 0 <= i < |done| ==> Walk(data, done[i]) == Some(Str(doneVals[i])))
    && forall p :: Walk(data, p).Some? && Walk(data, p).value.Str? ==> p in done
  }

  /** One more key keeps `Holds`. */
  lemma HoldsStep(data: seq<Entry>, done: seq<Path>, doneVals: seq<string>, segs: Path, vals: seq<string>)
    requires segs != [] && vals != []
    requires Holds(data, done, doneVals)
    requires forall i :: 0 <= i < |done| ==> Apart(done[i], segs)
    ensures Insert(data, segs, vals).Success?
    ensures Holds(Insert(data, segs, vals).value.0, done + [segs], doneVals + [vals[0]])
  {
    forall j | 1 <= j < |segs|
      ensures var w := Walk(data, segs[..j]); !(w.Some? && w.value.Str?)
    {
    }
    InsertSucceeds(data, segs, vals);
    var r := Insert(data, segs, vals).value.0;
    forall i | 0 <= i < |done|
      ensures Walk(r, done[i]) == Some(Str(doneVals[i]))
    {
      InsertKeeps(data, segs, vals, done[i]);
    }
    forall p | Walk(r, p).Some? && Walk(r, p).value.Str?
      ensures p in done + [segs]
    {
      InsertTexts(data, segs, vals, p);
    }
  }

  /** The next key is apart from every earlier one. */
  lemma NextApart(done: seq<Path>, paths: seq<Path>)
    requires paths != [] && NoConflict(done + paths)
    ensures forall i :: 0 <= i < |done| ==> Apart(done[i], paths[0])
    ensures done + [paths[0]] + paths[1..] == done + paths
  {
    MoveFirst(done, paths);
    var all := done + paths;
    forall i | 0 <= i < |done|
      ensures Apart(done[i], paths[0])
    {
      assert all[i] == done[i] && all[|done|] == paths[0];
    }
  }

  lemma PrefixTake<T>(p: seq<T>, s: seq<T>)
    requires p < s
    ensures s[..|p|] == p
  {
  }

  lemma NoneAfter<T>(a: seq<T>)
    ensures a + [] == a
  {
  }

  lemma NoneBefore<T>(a: seq<T>)
    ensures [] + a == a
  {
  }

  lemma MoveFirst<T>(a: seq<T>, s: seq<T>)
    requires s != []
    ensures a + [s[0]] + s[1..] == a + s
  {
    assert s == [s[0]] + s[1..];
  }

  /** The loop from `data` finishes and puts each value under its key. */
  lemma {:induction false} BuildFromHolds(data: seq<Entry>, done: seq<Path>, doneVals: seq<string>, paths: seq<Path>, vals: seq<string>)
    requires (forall i :: 0 <= i < |paths| ==> paths[i] != []) && |vals| == |paths|
    requires Holds(data, done, doneVals) && NoConflict(done + paths)
    ensures BuildFrom(data, paths, vals).Success?
    ensures Holds(BuildFrom(data, paths, vals).value, done + paths, doneVals + vals)
    decreases |paths|
  {
    if paths == [] {
      NoneAfter(done);
      NoneAfter(doneVals);
    } else {
      var p0 := paths[0];
      var step := Insert(data, p0, vals);
      assert step.Success? && Holds(step.value.0, done + [p0], doneVals + [vals[0]])
          && NoConflict(done + [p0] + paths[1..]) && step.value.1 == vals[1..] by {
        NextApart(done, paths);
        HoldsStep(data, done, doneVals, p0, vals);
      }
      var (data1, rest) := step.value;
      BuildFromHolds(data1, done + [p0], doneVals + [vals[0]], paths[1..], rest);
      assert BuildFrom(data, paths, vals) == BuildFrom(data1, paths[1..], rest);
      MoveFirst(done, paths);
      MoveFirst(doneVals, vals);
    }
  }

  /** For keys that do not conflict, the nested dict is built, and walking
      each key's segments reaches exactly that key's value. */
  lemma NestedDictRoundTrip(items: Dict<string, string>, separator: string)
    requires DictOk(items) && separator != "" && NoConflict(Paths(items.keys, separator))
    ensures NestedDict(items, separator).Success?
    ensures forall i :: 0 <= i < |items.keys| ==>
      Walk(NestedDict(items, separator).value, Split(items.keys[i], separator)) == Some(Str(items.entries[items.keys[i]]))
  {
    var paths := Paths(items.keys, separator);
    NoneBefore(paths);
    NoneBefore(Values(items));
    BuildFromHolds([], [], [], paths, Values(items));
  }

  /** A prefix key first: the longer key's descent meets a text and raises. */
  lemma PrefixFirstRaises(a: string, b: string, v: string, w: string)
    ensures Insert([], [a], [v, w]).Success?
    ensures var (data, rest) := Insert([], [a], [v, w]).value;
            Insert(data, [a, b], rest) == Failure(NotADict(a))
  {
    var (data, rest) := Insert([], [a], [v, w]).value;
    assert [a, b][..1] == [a];
    InsertFailsBelowText(data, [a, b], rest, 1);
  }

  /** A prefix key last: its text replaces the whole subtree. */
  lemma PrefixLastOverwrites(a: string, b: string, v: string, w: string)
    ensures Insert([], [a, b], [v, w]).Success?
    ensures var (data, rest) := Insert([], [a, b], [v, w]).value;
            Insert(data, [a], rest) == Success(([Entry(a, Str(w))], []))
  {
    assert [a, b][1..] == [b];
    assert [v, w][1..] == [w];
    assert [] + [Entry(b, Mapping([]))] == [Entry(b, Mapping([]))];
    assert SetDefault([], b, Mapping([])) == ([Entry(b, Mapping([]))], Mapping([]));
    assert Assign([Entry(b, Mapping([]))], b, Str(v)) == [Entry(b, Str(v))];
    assert Insert([], [b], [v, w]) == Success(([Entry(b, Str(v))], [w]));
    assert [] + [Entry(a, Mapping([]))] == [Entry(a, Mapping([]))];
    assert SetDefault([], a, Mapping([])) == ([Entry(a, Mapping([]))], Mapping([]));
    var data := [Entry(a, Mapping([Entry(b, Str(v))]))];
    assert Assign([Entry(a, Mapping([]))], a, Mapping([Entry(b, Str(v))])) == data;
    assert Insert([], [a, b], [v, w]) == Success((data, [w]));
    assert SetDefault(data, a, Mapping([])) == (data, Mapping([Entry(b, Str(v))]));
    assert Assign(data, a, Str(w)) == [Entry(a, Str(w))];
    assert [w][1..] == [];
  }

  // ---------------------------------------------------------------------
  // soft_capitalize, _recursive_build_stub and _nested_dict_to_stub
  // ---------------------------------------------------------------------

  /** `soft_capitalize`: `string[0].upper() + string[1:]`; "" has no `[0]`. */
  function SoftCapitalize(s: string): (r: Result<string, Error>)
    ensures r.Success? <==> s != ""
    ensures r.Success? ==> |r.value| == |s| && r.value[0] == UpperChar(s[0]) && r.value[1..] == s[1..]
    ensures r.Failure? ==> r.error == EmptyName
  {
    if s == "" then Failure(EmptyName) else Success([UpperChar(s[0])] + s[1..])
  }

  /** The stub of a text entry. */
  function MethodStub(key: string, value: string): string {
    "    @staticmethod\n    def " + key + "() -> Literal[\"" + value + "\"]: ...\n\n"
  }

  /** The attribute lines of a dict: one per entry that is a dict. */
  function AttrLines(items: seq<Entry>): Result<string, Error> {
    if items == [] then Success("")
    else
      var front :- AttrLines(items[..|items| - 1]);
      var e := items[|items| - 1];
      if e.value.Str? then Success(front)
      else
        var cap :- SoftCapitalize(e.key);
        Success(front + "    " + e.key + ": '" + cap + "'\n")
  }

  /** `_recursive_build_stub` over the entries `i..` of the dict `n`. */
  function ItemsText(n: Nested, i: nat): Result<string, Error>
    requires n.Mapping? && i <= |n.items|
    decreases n, |n.items| - i
  {
    if i == |n.items| then Success("")
    else
      var e := n.items[i];
      var piece :- if e.value.Str? then Success(MethodStub(e.key, e.value.text)) else ClassStub(n, i);
      var rest :- ItemsText(n, i + 1);
      Success(piece + rest)
  }

  /** The stub of the dict entry `i` of `n`: its class line, its attribute
      lines, then its own entries. */
  function ClassStub(n: Nested, i: nat): Result<string, Error>
    requires n.Mapping? && i < |n.items| && n.items[i].value.Mapping?
    decreases n, 0
  {
    var e := n.items[i];
    assert e in n.items;
    var cap :- SoftCapitalize(e.key);
    var attrs :- AttrLines(e.value.items);
    var inner :- ItemsText(e.value, 0);
    Success("\n" + "class " + cap + ":\n" + attrs + inner)
  }

  /** What `_nested_dict_to_stub(nested, root)` returns or raises. */
  function NestedToStub(nested: seq<Entry>, root: string): Result<string, Error> {
    var body :- ItemsText(Mapping([Entry(root, Mapping(nested))]), 0);
    Success("from typing import Literal\n" + body)
  }

  /** `ftl_to_stub` from the compiled items on. */
  function ItemsToStub(items: Dict<string, string>, root: string): Result<string, Error>
    requires DictOk(items)
  {
    var nested :- NestedDict(items, "-");
    NestedToStub(nested, root)
  }

  /** `t` in front of a successful text. */
  function Prepend(t: string, r: Result<string, Error>): Result<string, Error> {
    if r.Success? then Success(t + r.value) else r
  }

  /** The loop over the attributes of a dict. */
  method AttrLinesLoop(items: seq<Entry>) returns (r: Result<string, Error>)
    ensures r == AttrLines(items)
  {
    var text := "";
    var j := 0;
    while j < |items|
      invariant 0 <= j <= |items|
      invariant AttrLines(items[..j]) == Success(text)
    {
      assert items[..j + 1][..j] == items[..j];
      var e := items[j];
      if !e.value.Str? {
        var cap := SoftCapitalize(e.key);
        if cap.Failure? {
          AttrLinesFailureStays(items, j + 1);
          return Failure(cap.error);
        }
        text := text + "    " + e.key + ": '" + cap.value + "'\n";
      }
      j := j + 1;
    }
    assert items[..j] == items;
    r := Success(text);
  }

  /** An attribute that fails makes every longer list fail. */
  lemma {:induction false} AttrLinesFailureStays(items: seq<Entry>, j: nat)
    requires j <= |items| && AttrLines(items[..j]).Failure?
    ensures AttrLines(items) == AttrLines(items[..j])
    decreases |items| - j
  {
    if j < |items| {
      assert items[..j + 1][..j] == items[..j];
      AttrLinesFailureStays(items, j + 1);
    } else {
      assert items[..j] == items;
    }
  }

  /** `_recursive_build_stub`, with its `text +=` loop and its recursion. */
  method RecursiveBuildStub(n: Nested) returns (r: Result<string, Error>)
    requires n.Mapping?
    ensures r == ItemsText(n, 0)
    decreases n
  {
    var text := "";
    var i := 0;
    assert ItemsText(n, 0).Success? ==> "" + ItemsText(n, 0).value == ItemsText(n, 0).value;
    while i < |n.items|
      invariant 0 <= i <= |n.items|
      invariant ItemsText(n, 0) == Prepend(text, ItemsText(n, i))
    {
      var e := n.items[i];
      if e.value.Str? {
        PrependStep(text, MethodStub(e.key, e.value.text), ItemsText(n, i + 1));
        text := text + MethodStub(e.key, e.value.text);
      } else {
        assert e in n.items;
        var cap := SoftCapitalize(e.key);
        if cap.Failure? {
          return Failure(cap.error);
        }
        var attrs := AttrLinesLoop(e.value.items);
        if attrs.Failure? {
          return Failure(attrs.error);
        }
        var inner := RecursiveBuildStub(e.value);
        if inner.Failure? {
          return Failure(inner.error);
        }
        var piece := "\n" + "class " + cap.value + ":\n" + attrs.value + inner.value;
        assert ClassStub(n, i) == Success(piece);
        PrependStep(text, piece, ItemsText(n, i + 1));
        text := text + piece;
      }
      i := i + 1;
    }
    r := Success(text);
    assert text + "" == text;
  }

  lemma PrependStep(t: string, piece: string, rest: Result<string, Error>)
    ensures Prepend(t, if rest.Success? then Success(piece + rest.value) else rest) == Prepend(t + piece, rest)
  {
    if rest.Success? {
      AppendAssoc(t, piece, rest.value);
    }
  }

  /** `_nested_dict_to_stub`. */
  method NestedDictToStub(nested: seq<Entry>, root: string) returns (r: Result<string, Error>)
    ensures r == NestedToStub(nested, root)
  {
    var stubCode := "from typing import Literal\n";
    var body := RecursiveBuildStub(Mapping([Entry(root, Mapping(nested))]));
    if body.Failure? {
      return Failure(body.error);
    }
    r := Success(stubCode + body.value);
  }

  // ---------------------------------------------------------------------
  // Properties of the stub text
  // ---------------------------------------------------------------------

  /** The attribute lines fail exactly when some dict entry has an empty key. */
  lemma {:induction false} AttrLinesFailure(items: seq<Entry>)
    ensures AttrLines(items).Failure? <==> exists i :: 0 <= i < |items| && items[i].value.Mapping? && items[i].key == ""
  {
    if items != [] {
      var front := items[..|items| - 1];
      AttrLinesFailure(front);
      if exists i :: 0 <= i < |front| && front[i].value.Mapping? && front[i].key == "" {
        var i :| 0 <= i < |front| && front[i].value.Mapping? && front[i].key == "";
        assert items[i] == front[i];
      }
      if exists i :: 0 <= i < |items| && items[i].value.Mapping? && items[i].key == "" {
        var i :| 0 <= i < |items| && items[i].value.Mapping? && items[i].key == "";
        if i < |front| {
          assert front[i] == items[i];
        }
      }
    }
  }

  /** Text entries add no attribute line. */
  lemma {:induction false} AttrLinesOfTexts(items: seq<Entry>)
    requires forall i :: 0 <= i < |items| ==> items[i].value.Str?
    ensures AttrLines(items) == Success("")
  {
    if items != [] {
      AttrLinesOfTexts(items[..|items| - 1]);
    }
  }

  /** Once an entry fails, the entries before it cannot rescue the text. */
  lemma {:induction false} ItemsTextFailsBefore(n: Nested, j: nat, i: nat)
    requires n.Mapping? && j <= i < |n.items| && n.items[i].value.Mapping? && n.items[i].key == ""
    ensures ItemsText(n, j).Failure?
    decreases i - j
  {
    if j < i {
      ItemsTextFailsBefore(n, j + 1, i);
    } else {
      assert SoftCapitalize(n.items[i].key).Failure?;
    }
  }

  /** A dict entry with an empty name makes the whole dict fail. */
  lemma ClassKeyEmptyFails(n: Nested, i: nat)
    requires n.Mapping? && i < |n.items| && n.items[i].value.Mapping? && n.items[i].key == ""
    ensures ItemsText(n, 0).Failure?
  {
    ItemsTextFailsBefore(n, 0, i);
  }

  /** An empty root name raises. */
  lemma EmptyRootFails(nested: seq<Entry>)
    ensures NestedToStub(nested, "") == Failure(EmptyName)
  {
    var top := Mapping([Entry("", Mapping(nested))]);
    assert SoftCapitalize(top.items[0].key) == Failure(EmptyName);
    assert ClassStub(top, 0) == Failure(EmptyName);
    assert ItemsText(top, 0) == Failure(EmptyName);
  }

  /** A top-level dict with an empty name fails in the root's attribute lines. */
  lemma EmptyClassNameFails(nested: seq<Entry>, root: string, i: nat)
    requires i < |nested| && nested[i].value.Mapping? && nested[i].key == ""
    ensures NestedToStub(nested, root).Failure?
  {
    var top := Mapping([Entry(root, Mapping(nested))]);
    AttrLinesFailure(nested);
    assert AttrLines(top.items[0].value.items).Failure?;
    assert ClassStub(top, 0).Failure?;
    assert ItemsText(top, 0).Failure?;
  }

  /** One text under the root: the import, the root class, one method. */
  lemma OneText(root: string, key: string, value: string)
    requires root != ""
    ensures NestedToStub([Entry(key, Str(value))], root)
         == Success("from typing import Literal\n" + ("\n" + "class " + ([UpperChar(root[0])] + root[1..]) + ":\n"
                    + ("    @staticmethod\n    def " + key + "() -> Literal[\"" + value + "\"]: ...\n\n")))
  {
    var nested := [Entry(key, Str(value))];
    var top := Mapping([Entry(root, Mapping(nested))]);
    AttrLinesOfTexts(nested);
    assert ItemsText(Mapping(nested), 1) == Success("");
    assert MethodStub(key, value) + "" == MethodStub(key, value);
    assert ItemsText(Mapping(nested), 0) == Success(MethodStub(key, value));
    var piece := "\n" + "class " + ([UpperChar(root[0])] + root[1..]) + ":\n" + "" + MethodStub(key, value);
    assert ClassStub(top, 0) == Success(piece);
    assert ItemsText(top, 1) == Success("");
    assert piece + "" == piece;
    assert ItemsText(top, 0) == Success(piece);
    assert piece == "\n" + "class " + ([UpperChar(root[0])] + root[1..]) + ":\n" + MethodStub(key, value);
  }

  /** A dict under the root: an attribute line in the root class, then the
      nested class with its method. */
  lemma OneNested(root: string, name: string, key: string, value: string)
    requires root != "" && name != ""
    ensures NestedToStub([Entry(name, Mapping([Entry(key, Str(value))]))], root)
         == Success("from typing import Literal\n"
                    + ("\n" + "class " + ([UpperChar(root[0])] + root[1..]) + ":\n"
                       + ("    " + name + ": '" + ([UpperChar(name[0])] + name[1..]) + "'\n")
                       + ("\n" + "class " + ([UpperChar(name[0])] + name[1..]) + ":\n"
                          + ("    @staticmethod\n    def " + key + "() -> Literal[\"" + value + "\"]: ...\n\n"))))
  {
    var nested := [Entry(name, Mapping([Entry(key, Str(value))]))];
    var top := Mapping([Entry(root, Mapping(nested))]);
    var capRoot := [UpperChar(root[0])] + root[1..];
    var capName := [UpperChar(name[0])] + name[1..];
    var inner := "\n" + "class " + capName + ":\n" + MethodStub(key, value);
    var attr := "    " + name + ": '" + capName + "'\n";
    assert ItemsText(Mapping(nested), 0) == Success(inner) && AttrLines(nested) == Success(attr) by {
      NestedClass(name, key, value);
    }
    var piece := "\n" + "class " + capRoot + ":\n" + attr + inner;
    assert ClassStub(top, 0) == Success(piece);
    assert ItemsText(top, 1) == Success("");
    assert piece + "" == piece;
    assert ItemsText(top, 0) == Success(piece);
  }

  /** The nested part of `OneNested`: its attribute line and its class. */
  lemma NestedClass(name: string, key: string, value: string)
    requires name != ""
    ensures AttrLines([Entry(name, Mapping([Entry(key, Str(value))]))])
         == Success("    " + name + ": '" + ([UpperChar(name[0])] + name[1..]) + "'\n")
    ensures ItemsText(Mapping([Entry(name, Mapping([Entry(key, Str(value))]))]), 0)
         == Success("\n" + "class " + ([UpperChar(name[0])] + name[1..]) + ":\n" + MethodStub(key, value))
  {
    var leaf := [Entry(key, Str(value))];
    var nested := [Entry(name, Mapping(leaf))];
    var capName := [UpperChar(name[0])] + name[1..];
    AttrLinesOfTexts(leaf);
    assert AttrLines(nested) == Success("" + "    " + name + ": '" + capName + "'\n");
    assert "" + "    " + name + ": '" + capName + "'\n" == "    " + name + ": '" + capName + "'\n";
    assert ItemsText(Mapping(leaf), 1) == Success("");
    assert MethodStub(key, value) + "" == MethodStub(key, value);
    assert ItemsText(Mapping(leaf), 0) == Success(MethodStub(key, value));
    var inner := "\n" + "class " + capName + ":\n" + "" + MethodStub(key, value);
    assert ClassStub(Mapping(nested), 0) == Success(inner);
    assert ItemsText(Mapping(nested), 1) == Success("");
    assert inner + "" == inner;
    assert ItemsText(Mapping(nested), 0) == Success(inner);
    assert inner == "\n" + "class " + capName + ":\n" + MethodStub(key, value);
  }
}
