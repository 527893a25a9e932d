/** fluentogram/typing_generator/parsed_ftl.py: the legacy resolver.

    Every message becomes a `Node`: its text, in which variables, function
    calls and select expressions are written back in FTL notation, and the
    variables it uses in order of appearance, repeats kept.  Unlike the
    current parser, every select variant is kept.  A reference to a message
    that is not resolved yet raises `ReferenceNotExists`; the body loop then
    appends that message to the end of the body, so it is tried again after
    the entries that follow it.  That loop never ends on a reference that is
    never defined, so the model runs it with a bound on the number of
    re-queues. */
module LegacyParsedFtl {
  import opened Wrappers
  import opened Text
  import opened Dicts
  import opened FluentAst

  /** `Node(value, args)`. */
  datatype Node = Node(value: string, args: seq<string>)

  /** `ReferenceNotExists`: the exception carries nothing. */
  datatype ParseError = ReferenceNotExists

  /** `self.nodes`: message name to resolved node, in insertion order. */
  type Nodes = Dict<string, Node>

  /** `Translation(text, args)` of translation_dto.py. */
  datatype Translation = Translation(text: string, args: seq<string>)

  const Empty := Node("", [])

  // ---------------------------------------------------------------------
  // Leaves
  // ---------------------------------------------------------------------

  /** `_parse_variable_reference`: "{ $name }", using the variable. */
  function VariableNode(id: string): (n: Node)
    ensures n.args == [id] && |n.value| == |id| + 5
  {
    Node("{ $" + id + " }", [id])
  }

  /** The text of a literal: a string literal's value, or the formatted number. */
  function LiteralText(e: Expression): string {
    match e
    case NumberLiteral(v) => v
    case StringLiteral(v) => v
    case _ => ""
  }

  /** `_parse_named_argument`: "name: value". */
  function NamedText(a: NamedArgument): (r: string)
    ensures r != ""
  {
    a.name + ": " + LiteralText(a.value)
  }

  function NamedTexts(named: seq<NamedArgument>): (r: seq<string>)
    ensures |r| == |named| && forall i :: 0 <= i < |r| ==> r[i] == NamedText(named[i])
  {
    if named == [] then [] else NamedTexts(named[..|named| - 1]) + [NamedText(named[|named| - 1])]
  }

  /** The key of a variant as written: an identifier, or the formatted number. */
  function KeyName(k: VariantKey): string {
    match k
    case Identifier(name) => name
    case NumberKey(v) => v
  }

  /** One line of a select expression: "*" marks the default variant. */
  function VariantLine(v: Variant, text: string): string {
    "\n" + (if v.default then "*" else "") + "[" + KeyName(v.key) + "] " + text
  }

  function Dollars(ids: seq<string>): (r: seq<string>)
    ensures |r| == |ids| && forall i :: 0 <= i < |r| ==> r[i] == "$" + ids[i]
  {
    if ids == [] then [] else Dollars(ids[..|ids| - 1]) + ["$" + ids[|ids| - 1]]
  }

  /** The first line of a select expression: "{ $a, $b ->". */
  function SelectHead(ids: seq<string>): string {
    "{ " + Join(Dollars(ids), ", ") + " ->"
  }

  /** The values of the nodes, in order. */
  function Values(ns: seq<Node>): (r: seq<string>)
    ensures |r| == |ns| && forall i :: 0 <= i < |r| ==> r[i] == ns[i].value
  {
    if ns == [] then [] else Values(ns[..|ns| - 1]) + [ns[|ns| - 1].value]
  }

  /** The args of the nodes, one list after another. */
  function ArgsOf(ns: seq<Node>): seq<string> {
    if ns == [] then [] else ArgsOf(ns[..|ns| - 1]) + ns[|ns| - 1].args
  }

  /** `acc` followed by the node `r` holds, or `r`'s failure. */
  function Extend(acc: Node, r: Result<Node, ParseError>): Result<Node, ParseError> {
    if r.Success? then Success(Node(acc.value + r.value.value, acc.args + r.value.args)) else Failure(r.error)
  }

  // ---------------------------------------------------------------------
  // The recursive descent (`_parse_placeable` and the helpers it reaches)
  // ---------------------------------------------------------------------

  /** `_parse_placeable`: the expression of a placeable. */
  function PlaceableNode(nodes: Nodes, e: Expression): Result<Node, ParseError>
    decreases ExpressionSize(e), 5, 0
  {
    match e
    case VariableReference(id) => Success(VariableNode(id))
    case SelectExpression(_, _) => SelectNode(nodes, e)
    case NestedPlaceable(inner) => PlaceableNode(nodes, inner)
    case _ => InlineNode(nodes, e)
  }

  /** `_parse_inline_expression`.  A term reference, and anything that is not
      an inline expression, yields an empty node. */
  function InlineNode(nodes: Nodes, e: Expression): Result<Node, ParseError>
    decreases ExpressionSize(e), 4, 0
  {
    match e
    case NumberLiteral(v) => Success(Node(v, []))
    case StringLiteral(v) => Success(Node(v, []))
    case MessageReference(id) => if id in nodes.entries then Success(nodes.entries[id]) else Failure(ReferenceNotExists)
    case TermReference(_) => Success(Empty)
    case VariableReference(id) => Success(VariableNode(id))
    case FunctionReference(_, _, _) => FunctionNode(nodes, e)
    case _ => Success(Empty)
  }

  /** `_parse_function_reference`: "{ NAME(positionals, named) }" with the
      variables of the positional arguments only. */
  function FunctionNode(nodes: Nodes, e: Expression): Result<Node, ParseError>
    requires e.FunctionReference?
    decreases ExpressionSize(e), 3, 0
  {
    var ps :- PositionalNodes(nodes, e.positional, |e.positional|);
    var namedString := Join(NamedTexts(e.named), ", ");
    Success(Node("{ " + e.id + "(" + Join(Values(ps), ", ") + (if namedString != "" then "," else "") + " " + namedString + ") }",
                 ArgsOf(ps)))
  }

  /** A positional argument: a placeable, or an inline expression. */
  function PositionalNode(nodes: Nodes, p: Expression): Result<Node, ParseError>
    decreases ExpressionSize(p), 5, 1
  {
    if p.NestedPlaceable? then PlaceableNode(nodes, p.expression) else InlineNode(nodes, p)
  }

  /** The nodes of the first `n` positional arguments. */
  function PositionalNodes(nodes: Nodes, ps: seq<Expression>, n: nat): Result<seq<Node>, ParseError>
    requires n <= |ps|
    decreases ExpressionsSize(ps), 6, n
  {
    if n == 0 then Success([])
    else
      var front :- PositionalNodes(nodes, ps, n - 1);
      ExpressionWithinExpressions(ps, n - 1);
      var last :- PositionalNode(nodes, ps[n - 1]);
      Success(front + [last])
  }

  /** `_parse_select_expression`: the head line, one line per element of every
      variant, and "\n}"; the selector's variables, then the variants'. */
  function SelectNode(nodes: Nodes, e: Expression): Result<Node, ParseError>
    requires e.SelectExpression?
    decreases ExpressionSize(e), 3, 0
  {
    var selector :- InlineNode(nodes, e.selector);
    var parts :- VariantsNode(nodes, e.variants, |e.variants|);
    Success(Node(SelectHead(selector.args) + parts.value + "\n}", selector.args + parts.args))
  }

  /** The lines of the first `n` variants. */
  function VariantsNode(nodes: Nodes, vs: seq<Variant>, n: nat): Result<Node, ParseError>
    requires n <= |vs|
    decreases VariantsSize(vs), 6, n
  {
    if n == 0 then Success(Empty)
    else
      var front :- VariantsNode(nodes, vs, n - 1);
      VariantWithinVariants(vs, n - 1);
      Extend(front, VariantLines(nodes, vs[n - 1], vs[n - 1].value, |vs[n - 1].value|))
  }

  /** The lines of the first `m` elements of the variant `v`, whose pattern is `p`. */
  function VariantLines(nodes: Nodes, v: Variant, p: Pattern, m: nat): Result<Node, ParseError>
    requires m <= |p|
    decreases PatternSize(p), 7, m
  {
    if m == 0 then Success(Empty)
    else
      var front :- VariantLines(nodes, v, p, m - 1);
      ElementWithinPattern(p, m - 1);
      var el :- ElementNode(nodes, p[m - 1]);
      Success(Node(front.value + VariantLine(v, el.value), front.args + el.args))
  }

  /** A pattern element: text as it is, or a placeable. */
  function ElementNode(nodes: Nodes, el: PatternElement): Result<Node, ParseError>
    decreases ElementSize(el), 6, 0
  {
    match el
    case TextElement(t) => Success(Node(t, []))
    case Placeable(e) => PlaceableNode(nodes, e)
  }

  // ---------------------------------------------------------------------
  // Messages and the body
  // ---------------------------------------------------------------------

  /** The first loop of `_parse_message`: the nodes of the first `m` elements. */
  function ElementNodes(nodes: Nodes, p: Pattern, m: nat): Result<seq<Node>, ParseError>
    requires m <= |p|
  {
    if m == 0 then Success([])
    else
      var front :- ElementNodes(nodes, p, m - 1);
      var last :- ElementNode(nodes, p[m - 1]);
      Success(front + [last])
  }

  /** The second loop of `_parse_message`: the values and the args, concatenated. */
  function Concat(ns: seq<Node>): Node {
    Node(Lines((n: Node) => n.value, ns), ArgsOf(ns))
  }

  /** `_parse_message`. */
  function MessageNode(nodes: Nodes, p: Pattern): Result<Node, ParseError> {
    var ns :- ElementNodes(nodes, p, |p|);
    Success(Concat(ns))
  }

  /** Where `_parse_body` stops: the nodes, the messages it appended to the
      body, and whether it got to the end (false when the re-queue bound ran
      out, where the source loops on). */
  datatype BodyState = BodyState(nodes: Nodes, requeued: seq<Entry>, done: bool)

  /** `_parse_body` from the entry it is at: `queue` is the rest of the body,
      `fuel` the re-queues still allowed. */
  function BodyFrom(nodes: Nodes, queue: seq<Entry>, fuel: nat): BodyState
    decreases fuel, |queue|
  {
    if queue == [] then BodyState(nodes, [], true)
    else
      var e := queue[0];
      if e.MessageEntry? && e.value.Some? then
        match MessageNode(nodes, e.value.value)
        case Success(n) => BodyFrom(Put(nodes, e.id, n), queue[1..], fuel)
        case Failure(_) =>
          if fuel == 0 then BodyState(nodes, [], false)
          else
            var s := BodyFrom(nodes, queue[1..] + [e], fuel - 1);
            s.(requeued := [e] + s.requeued)
      else BodyFrom(nodes, queue[1..], fuel)
  }

  /** The dict comprehension of `get_messages`: each node's args become an OrderedSet. */
  function Translations(nodes: Nodes): (r: Dict<string, Translation>)
    ensures r.keys == nodes.keys && (DictOk(nodes) ==> DictOk(r))
    ensures forall k :: k in r.entries <==> k in nodes.entries
    ensures forall k :: k in r.entries ==> r.entries[k].text == nodes.entries[k].value
    ensures forall k :: k in r.entries ==>
              NoDup(r.entries[k].args) && forall x :: x in r.entries[k].args <==> x in nodes.entries[k].args
  {
    Dict(nodes.keys, map k | k in nodes.entries :: Translation(nodes.entries[k].value, Dedup(nodes.entries[k].args)))
  }

  // ---------------------------------------------------------------------
  // `ParsedRawFTL`
  // ---------------------------------------------------------------------

  class ParsedRawFtl {
    /** `self.parsed_ftl.body`. */
    var body: seq<Entry>
    /** `self.nodes`. */
    var nodes: Nodes

    /** The constructor keeps the parsed body.  `self.nodes` only exists once
        `_parse_body` has run; it is empty here. */
    constructor (resource: Resource)
      ensures body == resource && nodes == Dict([], map[])
    {
      body := resource;
      nodes := Dict([], map[]);
    }

    /** The first loop of `_parse_function_reference`: the text of every named argument. */
    static method CollectNamed(named: seq<NamedArgument>) returns (namedArgs: seq<string>)
      ensures namedArgs == NamedTexts(named)
    {
      namedArgs := [];
      var i := 0;
      while i < |named|
        invariant 0 <= i <= |named|
        invariant namedArgs == NamedTexts(named[..i])
      {
        assert named[..i + 1][..i] == named[..i];
        namedArgs := namedArgs + [NamedText(named[i])];
        i := i + 1;
      }
      assert named[..i] == named;
    }

    /** The last loop of `_parse_function_reference`: the args of every positional node, in order. */
    static method CollectArgs(positionals: seq<Node>) returns (positionalArgs: seq<string>)
      ensures positionalArgs == ArgsOf(positionals)
    {
      positionalArgs := [];
      var k := 0;
      while k < |positionals|
        invariant 0 <= k <= |positionals|
        invariant positionalArgs == ArgsOf(positionals[..k])
      {
        assert positionals[..k + 1][..k] == positionals[..k];
        positionalArgs := positionalArgs + positionals[k].args;
        k := k + 1;
      }
      assert positionals[..k] == positionals;
    }

    /** `_parse_function_reference`, with its three loops (the first and
        the last in `CollectNamed` and `CollectArgs`). */
    method ParseFunctionReference(e: Expression) returns (r: Result<Node, ParseError>)
      requires e.FunctionReference?
      ensures r == FunctionNode(nodes, e)
    {
      var namedArgs := CollectNamed(e.named);
      var positionals: seq<Node> := [];
      var j := 0;
      while j < |e.positional|
        invariant 0 <= j <= |e.positional|
        invariant PositionalNodes(nodes, e.positional, j) == Success(positionals)
      {
        var n := PositionalNode(nodes, e.positional[j]);
        if n.Failure? {
          PositionalsFail(nodes, e.positional, j + 1, |e.positional|);
          return Failure(ReferenceNotExists);
        }
        positionals := positionals + [n.value];
        j := j + 1;
      }
      var namedString := Join(namedArgs, ", ");
      var positionalString := Join(Values(positionals), ", ");
      var positionalArgs := CollectArgs(positionals);
      r := Success(Node("{ " + e.id + "(" + positionalString + (if namedString != "" then "," else "") + " " + namedString + ") }",
                        positionalArgs));
      FunctionNodeOf(nodes, e, positionals);
    }

    /** The inner loop of `_parse_select_expression`: one line per element of the variant. */
    method AppendVariant(v: Variant, acc: Node) returns (r: Result<Node, ParseError>)
      ensures r == Extend(acc, VariantLines(nodes, v, v.value, |v.value|))
    {
      var value, args := acc.value, acc.args;
      var j := 0;
      ghost var part := Empty;
      while j < |v.value|
        invariant 0 <= j <= |v.value|
        invariant VariantLines(nodes, v, v.value, j) == Success(part)
        invariant value == acc.value + part.value && args == acc.args + part.args
      {
        var el := ElementNode(nodes, v.value[j]);
        if el.Failure? {
          VariantLinesFail(nodes, v, v.value, j + 1, |v.value|);
          return Failure(ReferenceNotExists);
        }
        var line := VariantLine(v, el.value.value);
        AppendAssoc(acc.value, part.value, line);
        AppendAssoc(acc.args, part.args, el.value.args);
        value := value + line;
        args := args + el.value.args;
        part := Node(part.value + line, part.args + el.value.args);
        j := j + 1;
      }
      r := Success(Node(value, args));
    }

    /** `_parse_select_expression`. */
    method ParseSelectExpression(e: Expression) returns (r: Result<Node, ParseError>)
      requires e.SelectExpression?
      ensures r == SelectNode(nodes, e)
    {
      var selector := InlineNode(nodes, e.selector);
      if selector.Failure? {
        OnlyFailure(selector);
        return Failure(ReferenceNotExists);
      }
      var acc := Node(SelectHead(selector.value.args), selector.value.args);
      var i := 0;
      ghost var parts := Empty;
      while i < |e.variants|
        invariant 0 <= i <= |e.variants|
        invariant VariantsNode(nodes, e.variants, i) == Success(parts)
        invariant acc == Node(SelectHead(selector.value.args) + parts.value, selector.value.args + parts.args)
      {
        var next := AppendVariant(e.variants[i], acc);
        var more := VariantLines(nodes, e.variants[i], e.variants[i].value, |e.variants[i].value|);
        if next.Failure? {
          VariantsFail(nodes, e.variants, i + 1, |e.variants|);
          return Failure(ReferenceNotExists);
        }
        AppendAssoc(SelectHead(selector.value.args), parts.value, more.value.value);
        AppendAssoc(selector.value.args, parts.args, more.value.args);
        acc := next.value;
        parts := Node(parts.value + more.value.value, parts.args + more.value.args);
        i := i + 1;
      }
      r := Success(Node(acc.value + "\n}", acc.args));
    }

    /** `_parse_message`: the element nodes, then their concatenation. */
    method ParseMessage(p: Pattern) returns (r: Result<Node, ParseError>)
      ensures r == MessageNode(nodes, p)
    {
      var ns: seq<Node> := [];
      var i := 0;
      while i < |p|
        invariant 0 <= i <= |p|
        invariant ElementNodes(nodes, p, i) == Success(ns)
      {
        var n := ElementNode(nodes, p[i]);
        if n.Failure? {
          ElementNodesFail(nodes, p, i + 1, |p|);
          return Failure(ReferenceNotExists);
        }
        ns := ns + [n.value];
        i := i + 1;
      }
      var value, args := "", [];
      var j := 0;
      while j < |ns|
        invariant 0 <= j <= |ns|
        invariant Node(value, args) == Concat(ns[..j])
      {
        assert ns[..j + 1][..j] == ns[..j];
        value := value + ns[j].value;
        args := args + ns[j].args;
        j := j + 1;
      }
      assert ns[..j] == ns;
      r := Success(Node(value, args));
    }

    /** `_parse_body`, allowed `fuel` re-queues: each message is resolved and
        stored, an unresolvable one is appended to the body.  `None` when the
        bound runs out. */
    method ParseBody(fuel: nat) returns (r: Option<Nodes>)
      modifies this
      ensures var s := BodyFrom(Dict([], map[]), old(body), fuel);
              nodes == s.nodes && body == old(body) + s.requeued && r == (if s.done then Some(nodes) else None)
    {
      nodes := Dict([], map[]);
      var i := 0;
      var left := fuel;
      ghost var appended: seq<Entry> := [];
      while i < |body|
        invariant 0 <= i <= |body|
        invariant body == old(body) + appended
        invariant BodyFrom(Dict([], map[]), old(body), fuel) == Requeued(appended, BodyFrom(nodes, body[i..], left))
        decreases left, |body| - i
      {
        var e := body[i];
        assert body[i..][0] == e && body[i..][1..] == body[i + 1..];
        if e.MessageEntry? && e.value.Some? {
          var n := ParseMessage(e.value.value);
          if n.Success? {
            assert BodyFrom(nodes, body[i..], left) == BodyFrom(Put(nodes, e.id, n.value), body[i + 1..], left);
            nodes := Put(nodes, e.id, n.value);
          } else if left == 0 {
            assert BodyFrom(nodes, body[i..], left) == BodyState(nodes, [], false);
            AppendEmpty(appended, []);
            return None;
          } else {
            assert BodyFrom(nodes, body[i..], left) == Requeued([e], BodyFrom(nodes, body[i + 1..] + [e], left - 1));
            assert body[i + 1..] + [e] == (body + [e])[i + 1..];
            RequeuedAppend(appended, [e], BodyFrom(nodes, body[i + 1..] + [e], left - 1));
            body := body + [e];
            appended := appended + [e];
            left := left - 1;
          }
        } else {
          assert BodyFrom(nodes, body[i..], left) == BodyFrom(nodes, body[i + 1..], left);
        }
        i := i + 1;
      }
      assert body[i..] == [];
      RequeuedNone(appended, nodes);
      r := Some(nodes);
    }

    /** `get_messages`: every resolved message with its args deduplicated. */
    method GetMessages(fuel: nat) returns (r: Option<Dict<string, Translation>>)
      modifies this
      ensures var s := BodyFrom(Dict([], map[]), old(body), fuel);
              nodes == s.nodes && body == old(body) + s.requeued &&
              r == (if s.done then Some(Translations(s.nodes)) else None)
    {
      var parsed := ParseBody(fuel);
      if parsed.None? {
        return None;
      }
      r := Some(Translations(parsed.value));
    }
  }

  /** The state reached, with `a` appended to the body before it. */
  function Requeued(a: seq<Entry>, s: BodyState): BodyState {
    s.(requeued := a + s.requeued)
  }

  lemma RequeuedAppend(a: seq<Entry>, b: seq<Entry>, s: BodyState)
    ensures Requeued(a, Requeued(b, s)) == Requeued(a + b, s)
  {
    AppendAssoc(a, b, s.requeued);
  }

  lemma RequeuedNone(a: seq<Entry>, nodes: Nodes)
    ensures Requeued(a, BodyState(nodes, [], true)) == BodyState(nodes, a, true)
  {
    assert a + [] == a;
  }

  // ---------------------------------------------------------------------
  // A failure anywhere fails the whole
  // ---------------------------------------------------------------------

  /** The exception carries nothing, so every failure is the same. */
  lemma OnlyFailure<T>(r: Result<T, ParseError>)
    requires r.Failure?
    ensures r == Failure(ReferenceNotExists)
  {
    match r.error
    case ReferenceNotExists =>
  }

  lemma {:induction false} PositionalsFail(nodes: Nodes, ps: seq<Expression>, j: nat, n: nat)
    requires j <= n <= |ps| && PositionalNodes(nodes, ps, j).Failure?
    ensures PositionalNodes(nodes, ps, n) == Failure(ReferenceNotExists)
    decreases n
  {
    if n > j {
      PositionalsFail(nodes, ps, j, n - 1);
    }
    OnlyFailure(PositionalNodes(nodes, ps, n));
  }

  lemma {:induction false} VariantLinesFail(nodes: Nodes, v: Variant, p: Pattern, j: nat, m: nat)
    requires j <= m <= |p| && VariantLines(nodes, v, p, j).Failure?
    ensures VariantLines(nodes, v, p, m) == Failure(ReferenceNotExists)
    decreases m
  {
    if m > j {
      VariantLinesFail(nodes, v, p, j, m - 1);
    }
    OnlyFailure(VariantLines(nodes, v, p, m));
  }

  lemma {:induction false} VariantsFail(nodes: Nodes, vs: seq<Variant>, j: nat, n: nat)
    requires j <= n <= |vs| && VariantsNode(nodes, vs, j).Failure?
    ensures VariantsNode(nodes, vs, n) == Failure(ReferenceNotExists)
    decreases n
  {
    if n > j {
      VariantsFail(nodes, vs, j, n - 1);
    }
    OnlyFailure(VariantsNode(nodes, vs, n));
  }

  lemma {:induction false} ElementNodesFail(nodes: Nodes, p: Pattern, j: nat, m: nat)
    requires j <= m <= |p| && ElementNodes(nodes, p, j).Failure?
    ensures ElementNodes(nodes, p, m) == Failure(ReferenceNotExists)
    decreases m
  {
    if m > j {
      ElementNodesFail(nodes, p, j, m - 1);
    }
    OnlyFailure(ElementNodes(nodes, p, m));
  }

  // ---------------------------------------------------------------------
  // Properties
  // ---------------------------------------------------------------------

  /** The body loop keeps `self.nodes` a well-formed dict. */
  lemma {:induction false} BodyKeepsDict(nodes: Nodes, queue: seq<Entry>, fuel: nat)
    requires DictOk(nodes)
    ensures DictOk(BodyFrom(nodes, queue, fuel).nodes)
    decreases fuel, |queue|
  {
    if queue != [] {
      var e := queue[0];
      if e.MessageEntry? && e.value.Some? {
        match MessageNode(nodes, e.value.value)
        case Success(n) => BodyKeepsDict(Put(nodes, e.id, n), queue[1..], fuel);
        case Failure(_) =>
          if fuel > 0 {
            BodyKeepsDict(nodes, queue[1..] + [e], fuel - 1);
          }
      } else {
        BodyKeepsDict(nodes, queue[1..], fuel);
      }
    }
  }

  /** A variable reference, as a placeable or inside a call, is "{ $name }" and uses the variable. */
  lemma VariableReferenceNode(nodes: Nodes, id: string)
    ensures PlaceableNode(nodes, VariableReference(id)) == Success(Node("{ $" + id + " }", [id]))
    ensures InlineNode(nodes, VariableReference(id)) == PlaceableNode(nodes, VariableReference(id))
  {
  }

  /** A reference to a resolved message is that message's node; to any other, a failure. */
  lemma MessageReferenceNode(nodes: Nodes, id: string)
    ensures id in nodes.entries ==> PlaceableNode(nodes, MessageReference(id)) == Success(nodes.entries[id])
    ensures id !in nodes.entries ==> PlaceableNode(nodes, MessageReference(id)) == Failure(ReferenceNotExists)
  {
  }

  /** Term references, and expressions that are not inline expressions where
      one is expected, contribute nothing. */
  lemma NothingFromTermsAndOthers(nodes: Nodes, id: string, e: Expression)
    requires e.SelectExpression? || e.NestedPlaceable?
    ensures PlaceableNode(nodes, TermReference(id)) == Success(Empty)
    ensures InlineNode(nodes, e) == Success(Empty)
  {
  }

  lemma JoinNonEmpty(parts: seq<string>, sep: string)
    requires parts != [] && parts[0] != ""
    ensures Join(parts, sep) != ""
  {
    if |parts| > 1 {
      assert Join(parts, sep)[..|parts[0]|] == parts[0];
    }
  }

  /** A call is "{ NAME(positionals ) }" without named arguments and
      "{ NAME(positionals, named) }" with them; only the positional arguments
      bring variables. */
  /** `FunctionNode` once the positional arguments are known to be `ps`. */
  lemma FunctionNodeOf(nodes: Nodes, e: Expression, ps: seq<Node>)
    requires e.FunctionReference? && PositionalNodes(nodes, e.positional, |e.positional|) == Success(ps)
    ensures (var namedString := Join(NamedTexts(e.named), ", ");
             FunctionNode(nodes, e)
             == Success(Node("{ " + e.id + "(" + Join(Values(ps), ", ") + (if namedString != "" then "," else "") + " " + namedString + ") }",
                             ArgsOf(ps))))
  {
  }

  lemma FunctionReferenceShape(nodes: Nodes, e: Expression, ps: seq<Node>)
    requires e.FunctionReference? && PositionalNodes(nodes, e.positional, |e.positional|) == Success(ps)
    ensures FunctionNode(nodes, e)
         == Success(Node("{ " + e.id + "(" + Join(Values(ps), ", ")
                         + (if e.named == [] then " " else ", " + Join(NamedTexts(e.named), ", ")) + ") }",
                         ArgsOf(ps)))
  {
    CallText(e.id, Join(Values(ps), ", "), e.named);
  }

  /** The text part of `FunctionReferenceShape`. */
  lemma CallText(id: string, positional: string, named: seq<NamedArgument>)
    ensures (var namedString := Join(NamedTexts(named), ", ");
             "{ " + id + "(" + positional + (if namedString != "" then "," else "") + " " + namedString + ") }"
             == "{ " + id + "(" + positional + (if named == [] then " " else ", " + namedString) + ") }")
  {
    var front := "{ " + id + "(" + positional;
    var namedString := Join(NamedTexts(named), ", ");
    if named != [] {
      JoinNonEmpty(NamedTexts(named), ", ");
      assert front + "," + " " == front + ", ";
    } else {
      assert namedString == "";
      assert front + "" + " " + "" == front + " ";
    }
  }

  /** The lines of the two variants of `SelectExample`. */
  lemma SelectVariantsExample(nodes: Nodes, k1: string, t1: string, k2: string, y: string)
    ensures VariantsNode(nodes, [Variant(Identifier(k1), [TextElement(t1)], false),
                                 Variant(Identifier(k2), [Placeable(VariableReference(y))], true)], 2)
         == Success(Node(("\n[" + k1 + "] " + t1) + ("\n*[" + k2 + "] " + "{ $" + y + " }"), [y]))
  {
    var v1 := Variant(Identifier(k1), [TextElement(t1)], false);
    var v2 := Variant(Identifier(k2), [Placeable(VariableReference(y))], true);
    var vs := [v1, v2];
    var l1 := "\n[" + k1 + "] " + t1;
    var l2 := "\n*[" + k2 + "] " + "{ $" + y + " }";
    assert VariantLine(v1, t1) == l1;
    assert VariantLine(v2, "{ $" + y + " }") == l2;
    assert "" + l1 == l1 && "" + l2 == l2;
    assert ElementNode(nodes, v1.value[0]) == Success(Node(t1, []));
    assert ElementNode(nodes, v2.value[0]) == Success(VariableNode(y));
    assert VariantLines(nodes, v1, v1.value, 0) == Success(Empty);
    assert VariantLines(nodes, v1, v1.value, 1).Success?;
    assert VariantLines(nodes, v1, v1.value, 1).value.value == l1;
    assert VariantLines(nodes, v1, v1.value, 1).value.args == [];
    assert VariantLines(nodes, v2, v2.value, 0) == Success(Empty);
    assert VariantLines(nodes, v2, v2.value, 1).Success?;
    assert VariantLines(nodes, v2, v2.value, 1).value.value == l2;
    assert VariantLines(nodes, v2, v2.value, 1).value.args == [y];
    assert VariantsNode(nodes, vs, 0) == Success(Empty);
    assert VariantsNode(nodes, vs, 1).Success?;
    assert VariantsNode(nodes, vs, 1).value.value == l1;
    assert VariantsNode(nodes, vs, 1).value.args == [];
    assert VariantsNode(nodes, vs, 2).Success?;
    assert VariantsNode(nodes, vs, 2).value.value == l1 + l2;
  }

  /** `{ $s -> [k1] t1 *[k2] { $y } }`: one line per variant, the star on the
      default, and the selector's variable before the variants'. */
  lemma SelectExample(nodes: Nodes, s: string, k1: string, t1: string, k2: string, y: string)
    ensures PlaceableNode(nodes, SelectExpression(VariableReference(s),
                                                  [Variant(Identifier(k1), [TextElement(t1)], false),
                                                   Variant(Identifier(k2), [Placeable(VariableReference(y))], true)]))
         == Success(Node("{ $" + s + " ->" + ("\n[" + k1 + "] " + t1) + ("\n*[" + k2 + "] " + "{ $" + y + " }") + "\n}", [s, y]))
  {
    var vs := [Variant(Identifier(k1), [TextElement(t1)], false),
               Variant(Identifier(k2), [Placeable(VariableReference(y))], true)];
    var head := "{ $" + s + " ->";
    var l1 := "\n[" + k1 + "] " + t1;
    var l2 := "\n*[" + k2 + "] " + "{ $" + y + " }";
    assert Dollars([s]) == ["$" + s];
    assert SelectHead([s]) == head;
    SelectVariantsExample(nodes, k1, t1, k2, y);
    var e := SelectExpression(VariableReference(s), vs);
    assert InlineNode(nodes, e.selector) == Success(VariableNode(s));
    assert SelectNode(nodes, e) == Success(Node(head + (l1 + l2) + "\n}", [s] + [y]));
    AppendAssoc(head, l1, l2);
    assert [s] + [y] == [s, y];
    assert PlaceableNode(nodes, e) == SelectNode(nodes, e);
  }

  /** A variant with several elements gives one line per element, each with
      the variant's key. */
  lemma VariantPerElement(nodes: Nodes, v: Variant, a: string, b: string)
    requires v.value == [TextElement(a), TextElement(b)]
    ensures VariantLines(nodes, v, v.value, |v.value|) == Success(Node(VariantLine(v, a) + VariantLine(v, b), []))
  {
    var p := v.value;
    assert ElementNode(nodes, p[0]) == Success(Node(a, []));
    assert ElementNode(nodes, p[1]) == Success(Node(b, []));
    assert VariantLines(nodes, v, p, 0) == Success(Empty);
    var one := Node(VariantLine(v, a), []);
    assert "" + VariantLine(v, a) == VariantLine(v, a);
    assert VariantLines(nodes, v, p, 1).Success?;
    assert VariantLines(nodes, v, p, 1).value.args == [];
    assert VariantLines(nodes, v, p, 1).value.value == "" + VariantLine(v, a);
    assert VariantLines(nodes, v, p, 1) == Success(one);
    assert VariantLines(nodes, v, p, 2) == Success(Node(one.value + VariantLine(v, b), one.args + []));
  }

  lemma {:induction false} ArgsOfConcat(a: seq<Node>, b: seq<Node>)
    ensures ArgsOf(a + b) == ArgsOf(a) + ArgsOf(b)
    decreases |b|
  {
    if b == [] {
      assert a + b == a;
    } else {
      var c := b[..|b| - 1];
      assert (a + b)[..|a + b| - 1] == a + c;
      ArgsOfConcat(a, c);
      AppendAssoc(ArgsOf(a), ArgsOf(c), b[|b| - 1].args);
    }
  }

  /** The element nodes of a prefix do not depend on what follows it. */
  lemma {:induction false} ElementNodesPrefix(nodes: Nodes, p: Pattern, q: Pattern, m: nat)
    requires m <= |p|
    ensures ElementNodes(nodes, p + q, m) == ElementNodes(nodes, p, m)
    decreases m
  {
    if m > 0 {
      ElementNodesPrefix(nodes, p, q, m - 1);
      assert (p + q)[m - 1] == p[m - 1];
    }
  }

  lemma {:induction false} ElementNodesConcat(nodes: Nodes, p: Pattern, q: Pattern, m: nat)
    requires m <= |q|
    ensures var (a, b, c) := (ElementNodes(nodes, p, |p|), ElementNodes(nodes, q, m), ElementNodes(nodes, p + q, |p| + m));
            if a.Success? && b.Success? then c == Success(a.value + b.value) else c.Failure?
    decreases m
  {
    if m == 0 {
      ElementNodesPrefix(nodes, p, q, |p|);
      var a := ElementNodes(nodes, p, |p|);
      if a.Success? {
        assert a.value + [] == a.value;
      }
    } else {
      ElementNodesConcat(nodes, p, q, m - 1);
      assert (p + q)[|p| + m - 1] == q[m - 1];
      var a := ElementNodes(nodes, p, |p|);
      var b := ElementNodes(nodes, q, m - 1);
      if a.Success? && b.Success? && ElementNode(nodes, q[m - 1]).Success? {
        AppendAssoc(a.value, b.value, [ElementNode(nodes, q[m - 1]).value]);
      }
    }
  }

  /** A message's value is its elements' values, one after another, and its
      args are theirs in the same order: resolving two halves and joining
      them is resolving the whole. */
  lemma MessageConcat(nodes: Nodes, p: Pattern, q: Pattern)
    ensures (var (a, b) := (MessageNode(nodes, p), MessageNode(nodes, q));
             MessageNode(nodes, p + q)
             == if a.Success? && b.Success? then Success(Node(a.value.value + b.value.value, a.value.args + b.value.args))
                else Failure(ReferenceNotExists))
  {
    ElementNodesConcat(nodes, p, q, |q|);
    var a := ElementNodes(nodes, p, |p|);
    var b := ElementNodes(nodes, q, |q|);
    var c := ElementNodes(nodes, p + q, |p + q|);
    assert |p + q| == |p| + |q|;
    if a.Success? && b.Success? {
      assert c == Success(a.value + b.value);
      LinesConcat((n: Node) => n.value, a.value, b.value);
      ArgsOfConcat(a.value, b.value);
      assert MessageNode(nodes, p) == Success(Concat(a.value));
      assert MessageNode(nodes, q) == Success(Concat(b.value));
      assert MessageNode(nodes, p + q) == Success(Concat(a.value + b.value));
    } else {
      assert MessageNode(nodes, p + q).Failure?;
      OnlyFailure(MessageNode(nodes, p + q));
    }
  }

  /** The ids of the messages in the body that have a value. */
  function MessageIds(queue: seq<Entry>): set<string> {
    set e | e in queue && e.MessageEntry? && e.value.Some? :: e.id
  }

  /** Only messages with a value are stored: comments, terms, junk and
      messages without a value are skipped. */
  lemma {:induction false} BodyKeys(nodes: Nodes, queue: seq<Entry>, fuel: nat)
    ensures BodyFrom(nodes, queue, fuel).nodes.entries.Keys <= nodes.entries.Keys + MessageIds(queue)
    decreases fuel, |queue|
  {
    if queue != [] {
      var e := queue[0];
      assert MessageIds(queue[1..]) <= MessageIds(queue);
      if e.MessageEntry? && e.value.Some? {
        assert e.id in MessageIds(queue);
        match MessageNode(nodes, e.value.value)
        case Success(n) => BodyKeys(Put(nodes, e.id, n), queue[1..], fuel);
        case Failure(_) =>
          if fuel > 0 {
            BodyKeys(nodes, queue[1..] + [e], fuel - 1);
            assert MessageIds(queue[1..] + [e]) <= MessageIds(queue);
          }
      } else {
        BodyKeys(nodes, queue[1..], fuel);
      }
    }
  }

  /** A larger re-queue bound changes nothing once the loop finishes. */
  lemma {:induction false} MoreFuel(nodes: Nodes, queue: seq<Entry>, fuel: nat)
    requires BodyFrom(nodes, queue, fuel).done
    ensures BodyFrom(nodes, queue, fuel + 1) == BodyFrom(nodes, queue, fuel)
    decreases fuel, |queue|
  {
    if queue != [] {
      var e := queue[0];
      if e.MessageEntry? && e.value.Some? {
        match MessageNode(nodes, e.value.value)
        case Success(n) => MoreFuel(Put(nodes, e.id, n), queue[1..], fuel);
        case Failure(_) => MoreFuel(nodes, queue[1..] + [e], fuel - 1);
      } else {
        MoreFuel(nodes, queue[1..], fuel);
      }
    }
  }

  /** A message that refers to one defined after it is stored after it:
      `a = { b }` then `b = t` gives `b` first, then `a` with `b`'s text. */
  lemma ForwardReference(a: string, b: string, t: string, fuel: nat)
    requires a != b && fuel >= 1
    ensures (var first := MessageEntry(a, Some([Placeable(MessageReference(b))]));
             var second := MessageEntry(b, Some([TextElement(t)]));
             BodyFrom(Dict([], map[]), [first, second], fuel)
             == BodyState(Dict([b, a], map[b := Node(t, []), a := Node(t, [])]), [first], true))
  {
    var first := MessageEntry(a, Some([Placeable(MessageReference(b))]));
    var second := MessageEntry(b, Some([TextElement(t)]));
    var empty: Nodes := Dict([], map[]);
    var two := Dict([b, a], map[b := Node(t, []), a := Node(t, [])]);
    assert MessageNode(empty, [Placeable(MessageReference(b))]).Failure? by {
      ReferenceMissing(b);
    }
    assert [first, second][1..] + [first] == [second, first];
    assert BodyFrom(empty, [second, first], fuel - 1) == BodyState(two, [], true) by {
      RequeuedPass(a, b, t, fuel - 1);
    }
    assert [first] + [] == [first];
  }

  /** The pass of `ForwardReference` after `a` was put back: `b`, then `a`. */
  lemma RequeuedPass(a: string, b: string, t: string, fuel: nat)
    requires a != b
    ensures (var first := MessageEntry(a, Some([Placeable(MessageReference(b))]));
             var second := MessageEntry(b, Some([TextElement(t)]));
             BodyFrom(Dict([], map[]), [second, first], fuel)
             == BodyState(Dict([b, a], map[b := Node(t, []), a := Node(t, [])]), [], true))
  {
    var first := MessageEntry(a, Some([Placeable(MessageReference(b))]));
    var second := MessageEntry(b, Some([TextElement(t)]));
    var empty: Nodes := Dict([], map[]);
    var one: Nodes := Dict([b], map[b := Node(t, [])]);
    assert [second, first][0] == second && [second, first][1..] == [first];
    TextMessage(t);
    assert Put(empty, b, Node(t, [])) == one;
    assert BodyFrom(empty, [second, first], fuel) == BodyFrom(one, [first], fuel);
    StoreReferrer(a, b, t, fuel);
  }

  /** The last step of `ForwardReference`: with `b` stored, `a` resolves. */
  lemma StoreReferrer(a: string, b: string, t: string, fuel: nat)
    requires a != b
    ensures (var first := MessageEntry(a, Some([Placeable(MessageReference(b))]));
             BodyFrom(Dict([b], map[b := Node(t, [])]), [first], fuel)
             == BodyState(Dict([b, a], map[b := Node(t, []), a := Node(t, [])]), [], true))
  {
    var first := MessageEntry(a, Some([Placeable(MessageReference(b))]));
    var one: Nodes := Dict([b], map[b := Node(t, [])]);
    var two: Nodes := Dict([b, a], map[b := Node(t, []), a := Node(t, [])]);
    ReferenceFound(b, t);
    assert [first][0] == first && [first][1..] == [];
    assert Put(one, a, Node(t, [])) == two;
    assert BodyFrom(one, [first], fuel) == BodyFrom(two, [], fuel);
  }

  /** The first step of `ForwardReference`: `{ b }` fails while `b` is missing. */
  lemma ReferenceMissing(b: string)
    ensures MessageNode(Dict([], map[]), [Placeable(MessageReference(b))]).Failure?
  {
    var empty: Nodes := Dict([], map[]);
    var pa := [Placeable(MessageReference(b))];
    assert ElementNodes(empty, pa, 0) == Success([]);
    assert InlineNode(empty, MessageReference(b)).Failure?;
    assert PlaceableNode(empty, MessageReference(b)).Failure?;
    assert ElementNode(empty, pa[0]).Failure?;
    assert ElementNodes(empty, pa, 1).Failure?;
  }

  /** The second step of `ForwardReference`: `b = t` has the node (t, []). */
  lemma TextMessage(t: string)
    ensures MessageNode(Dict([], map[]), [TextElement(t)]) == Success(Node(t, []))
  {
    var empty: Nodes := Dict([], map[]);
    var pb := [TextElement(t)];
    var tn := Node(t, []);
    assert ElementNodes(empty, pb, 0) == Success([]);
    assert ElementNode(empty, pb[0]) == Success(tn);
    assert ElementNodes(empty, pb, 1).Success?;
    assert ElementNodes(empty, pb, 1).value == [] + [tn];
    assert [] + [tn] == [tn];
    assert Concat([tn]) == tn by {
      assert [tn][..0] == [];
      assert "" + t == t;
      assert Lines((n: Node) => n.value, [tn]) == t;
      assert ArgsOf([tn]) == [];
    }
  }

  /** The third step of `ForwardReference`: once `b` is stored, `{ b }` has its node. */
  lemma ReferenceFound(b: string, t: string)
    ensures MessageNode(Dict([b], map[b := Node(t, [])]), [Placeable(MessageReference(b))]) == Success(Node(t, []))
  {
    var one: Nodes := Dict([b], map[b := Node(t, [])]);
    var pa := [Placeable(MessageReference(b))];
    var tn := Node(t, []);
    assert ElementNodes(one, pa, 0) == Success([]);
    assert InlineNode(one, MessageReference(b)) == Success(tn);
    assert PlaceableNode(one, MessageReference(b)) == Success(tn);
    assert ElementNode(one, pa[0]) == Success(tn);
    assert ElementNodes(one, pa, 1).Success?;
    assert ElementNodes(one, pa, 1).value == [] + [tn];
    assert [] + [tn] == [tn];
    assert Concat([tn]) == tn by {
      assert [tn][..0] == [];
      assert "" + t == t;
      assert Lines((n: Node) => n.value, [tn]) == t;
      assert ArgsOf([tn]) == [];
    }
  }
}
