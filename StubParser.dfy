/** The catalog parser of the current stub generator (fluentogram/stub_generator/parser.py).

    A `Parser` keeps the messages it has seen, in insertion order, and the
    text of every term.  `Parse` runs two passes over a resource: the first
    stores terms and the raw elements of every message, the second resolves
    each message to a `resultText` and a sorted list of placeholder names,
    inlining terms and referenced messages and keeping only the default
    variant of a select expression.

    The `After...` functions give the state the parser reaches; the methods
    of `Parser` change the same state step by step and are proved to reach
    it.  Resolving a reference to a message that has no text yet recurses
    into that message; `depth` bounds that recursion, and running out of it
    is the `RecursionLimit` error (the source recurses until the
    interpreter's own recursion limit). */
module StubParser {
  import opened Wrappers
  import opened Text
  import opened FluentAst

  /** One message of the catalog as the parser keeps it. */
  datatype Message = Message(name: string, resultText: string, rawElements: Pattern, placeholders: seq<string>)

  /** TermNotFound is the KeyError raised for an undeclared term. */
  datatype ParseError = TermNotFound(id: string) | RecursionLimit(id: string)

  type Messages = map<string, Message>
  type Terms = map<string, string>

  /** The messages `parse` returns: names in insertion order and the messages by name. */
  datatype Catalog = Catalog(names: seq<string>, messages: Messages)

  /** The text a variable reference leaves in a stub: `{ $name }`. */
  function VarText(id: string): string {
    "{ $" + id + " }"
  }

  predicate AllNoDup(ms: Messages) {
    forall k :: k in ms ==> NoDup(ms[k].placeholders)
  }

  /** Every message outside `open` has sorted placeholders. */
  predicate SortedOutside(ms: Messages, open: set<string>) {
    forall k :: k in ms && k !in open ==> Sorted(ms[k].placeholders)
  }

  predicate Matches(r: Result<Messages, ParseError>, err: Option<ParseError>, ms: Messages) {
    if r.Success? then err == None && ms == r.value else err == Some(r.error)
  }

  function AppendText(ms: Messages, cur: string, s: string): (r: Messages)
    requires cur in ms
    ensures r.Keys == ms.Keys
    ensures r[cur].resultText == ms[cur].resultText + s
    ensures r[cur].placeholders == ms[cur].placeholders && r[cur].rawElements == ms[cur].rawElements
    ensures forall k :: k in ms && k != cur ==> r[k] == ms[k]
  {
    ms[cur := ms[cur].(resultText := ms[cur].resultText + s)]
  }

  // ---------------------------------------------------------------------
  // First pass: terms and message structures
  // ---------------------------------------------------------------------

  /** `process_term`: every text element overwrites the term's stored text;
      placeables are only logged (fluent.syntax never puts a bare
      TermReference among pattern elements). */
  function AfterTerm(terms: Terms, id: string, value: Pattern): Terms
    decreases |value|
  {
    if value == [] then terms
    else
      var next := if value[0].TextElement? then terms[id := value[0].value] else terms;
      AfterTerm(next, id, value[1..])
  }

  /** The value of the last text element of a pattern, if it has one. */
  function LastText(value: Pattern): Option<string>
    decreases |value|
  {
    if value == [] then None
    else if value[|value| - 1].TextElement? then Some(value[|value| - 1].value)
    else LastText(value[..|value| - 1])
  }

  /** `LastText` is the value of the text element that no other text element follows. */
  lemma {:induction false} LastTextIsLast(value: Pattern)
    ensures LastText(value).None? <==> forall i :: 0 <= i < |value| ==> !value[i].TextElement?
    ensures LastText(value).Some? ==>
              exists i :: 0 <= i < |value| && value[i] == TextElement(LastText(value).value) &&
                          forall j :: i < j < |value| ==> !value[j].TextElement?
    decreases |value|
  {
    if value != [] {
      var n := |value| - 1;
      if !value[n].TextElement? {
        var front := value[..n];
        LastTextIsLast(front);
        assert LastText(value) == LastText(front);
        assert forall i :: 0 <= i < n ==> value[i] == front[i];
        if LastText(front).Some? {
          var i :| 0 <= i < |front| && front[i] == TextElement(LastText(front).value) &&
                   forall j :: i < j < |front| ==> !front[j].TextElement?;
          assert value[i] == TextElement(LastText(value).value);
          assert forall j :: i < j < |value| ==> !value[j].TextElement?;
          assert !forall k :: 0 <= k < |value| ==> !value[k].TextElement?;
        } else {
          assert forall k :: 0 <= k < |value| ==> !value[k].TextElement?;
        }
      } else {
        assert LastText(value) == Some(value[n].value);
        assert value[n] == TextElement(LastText(value).value);
      }
    }
  }

  lemma {:induction false} AfterTermPrefix(terms: Terms, id: string, value: Pattern)
    requires value != []
    ensures AfterTerm(terms, id, value) ==
            var before := AfterTerm(terms, id, value[..|value| - 1]);
            if value[|value| - 1].TextElement? then before[id := value[|value| - 1].value] else before
    decreases |value|
  {
    if |value| > 1 {
      var next := if value[0].TextElement? then terms[id := value[0].value] else terms;
      AfterTermPrefix(next, id, value[1..]);
      assert value[1..][..|value[1..]| - 1] == value[..|value| - 1][1..];
    }
  }

  /** A term's stored text is the value of its last text element; a term
      without text elements leaves the table as it was. */
  lemma {:induction false} TermKeepsLastText(terms: Terms, id: string, value: Pattern)
    ensures AfterTerm(terms, id, value) ==
            match LastText(value)
            case None => terms
            case Some(v) => terms[id := v]
    decreases |value|
  {
    if value != [] {
      AfterTermPrefix(terms, id, value);
      TermKeepsLastText(terms, id, value[..|value| - 1]);
    }
  }

  /** `process_message`: a fresh message with no text and no placeholders,
      keeping the raw elements (none when the message has no value).  A
      repeated id replaces the message but keeps its first position. */
  function NewMessage(id: string, value: Option<Pattern>): (m: Message)
    ensures m.name == id && m.resultText == "" && m.placeholders == []
    ensures m.rawElements == (if value.Some? then value.value else [])
  {
    Message(id, "", if value.Some? then value.value else [], [])
  }

  /** The state after the first pass over `entries`. */
  function AfterFirstPass(order: seq<string>, ms: Messages, terms: Terms, entries: Resource): (r: (seq<string>, Messages, Terms))
    decreases |entries|
  {
    if entries == [] then (order, ms, terms)
    else
      match entries[0]
      case TermEntry(id, value) => AfterFirstPass(order, ms, AfterTerm(terms, id, value), entries[1..])
      case MessageEntry(id, value) => AfterFirstPass(AddUnique(order, id), ms[id := NewMessage(id, value)], terms, entries[1..])
      case _ => AfterFirstPass(order, ms, terms, entries[1..])
  }

  ghost predicate OrderMatches(order: seq<string>, ms: Messages) {
    NoDup(order) && (forall k :: k in ms <==> k in order)
  }

  predicate AllNames(ms: Messages) {
    forall k :: k in ms ==> ms[k].name == k
  }

  // ---------------------------------------------------------------------
  // Second pass: resolving one message
  // ---------------------------------------------------------------------

  /** `_parse_variable_reference`: the name joins the placeholders unless it
      is already there, and `{ $name }` joins the text. */
  function AfterVariableReference(ms: Messages, cur: string, id: string): (r: Messages)
    requires cur in ms
    ensures r.Keys == ms.Keys
    ensures forall k :: k in ms && k != cur ==> r[k] == ms[k]
    ensures r[cur].name == ms[cur].name && r[cur].rawElements == ms[cur].rawElements
    ensures r[cur].resultText == ms[cur].resultText + VarText(id)
    ensures forall y :: y in r[cur].placeholders <==> y in ms[cur].placeholders || y == id
    ensures |r[cur].placeholders| >= |ms[cur].placeholders|
    ensures r[cur].placeholders[..|ms[cur].placeholders|] == ms[cur].placeholders
    ensures NoDup(ms[cur].placeholders) ==> NoDup(r[cur].placeholders)
  {
    var m := ms[cur];
    ms[cur := m.(placeholders := AddUnique(m.placeholders, id), resultText := m.resultText + VarText(id))]
  }

  /** `_parse_term_reference`: the term's text is inlined; an undeclared term
      is an error. */
  function AfterTermReference(ms: Messages, terms: Terms, cur: string, id: string): (r: Result<Messages, ParseError>)
    requires cur in ms
    ensures r.Failure? <==> id !in terms
    ensures r.Failure? ==> r.error == TermNotFound(id)
    ensures r.Success? ==> r.value == AppendText(ms, cur, terms[id])
  {
    if id in terms then Success(AppendText(ms, cur, terms[id])) else Failure(TermNotFound(id))
  }

  /** The names of the positional arguments that are variable references, in order. */
  function VariableIds(args: seq<Expression>): (r: seq<string>)
    ensures forall y :: y in r <==> VariableReference(y) in args
  {
    if args == [] then []
    else if args[0].VariableReference? then [args[0].id] + VariableIds(args[1..])
    else VariableIds(args[1..])
  }

  function VarTexts(ids: seq<string>): string {
    if ids == [] then "" else VarText(ids[0]) + VarTexts(ids[1..])
  }

  /** `_parse_function_reference`: only the variable-reference positional
      arguments count, each as a variable reference; the function's name,
      its other positional arguments and its named arguments add nothing. */
  function AfterFunctionReference(ms: Messages, cur: string, positional: seq<Expression>): (r: Messages)
    requires cur in ms
    ensures r.Keys == ms.Keys
    ensures forall k :: k in ms && k != cur ==> r[k] == ms[k]
    ensures r[cur].name == ms[cur].name && r[cur].rawElements == ms[cur].rawElements
    decreases |positional|
  {
    if positional == [] then ms
    else
      var ms1 := if positional[0].VariableReference? then AfterVariableReference(ms, cur, positional[0].id) else ms;
      AfterFunctionReference(ms1, cur, positional[1..])
  }

  /** A function reference adds `{ $x }` for each variable-reference
      positional argument `x`, in order, and merges their names into the
      placeholders. */
  lemma {:induction false} FunctionReferenceEffect(ms: Messages, cur: string, positional: seq<Expression>)
    requires cur in ms
    ensures var r := AfterFunctionReference(ms, cur, positional);
            r[cur].resultText == ms[cur].resultText + VarTexts(VariableIds(positional)) &&
            r[cur].placeholders == Merge(ms[cur].placeholders, VariableIds(positional))
    decreases |positional|
  {
    if positional != [] {
      var ms1 := if positional[0].VariableReference? then AfterVariableReference(ms, cur, positional[0].id) else ms;
      FunctionReferenceEffect(ms1, cur, positional[1..]);
      assert AfterFunctionReference(ms, cur, positional) == AfterFunctionReference(ms1, cur, positional[1..]);
      var ids := VariableIds(positional);
      var later := VariableIds(positional[1..]);
      if positional[0].VariableReference? {
        var id := positional[0].id;
        assert ids == [id] + later;
        assert ids[0] == id && ids[1..] == later;
        assert VarTexts(ids) == VarText(id) + VarTexts(later);
        AppendAssoc(ms[cur].resultText, VarText(id), VarTexts(later));
        assert Merge(ms[cur].placeholders, ids) == Merge(AddUnique(ms[cur].placeholders, id), later);
      } else {
        assert ids == later;
      }
    }
  }

  /** A pattern's elements in order: text is appended, placeables are parsed. */
  function AfterElements(ms: Messages, terms: Terms, cur: string, p: Pattern, depth: nat): (r: Result<Messages, ParseError>)
    requires cur in ms
    ensures r.Success? ==> r.value.Keys == ms.Keys
    ensures r.Success? && AllNoDup(ms) ==> AllNoDup(r.value)
    decreases depth, PatternSize(p), 1
  {
    if p == [] then Success(ms)
    else
      var ms1 :- AfterElement(ms, terms, cur, p[0], depth);
      AfterElements(ms1, terms, cur, p[1..], depth)
  }

  function AfterElement(ms: Messages, terms: Terms, cur: string, el: PatternElement, depth: nat): (r: Result<Messages, ParseError>)
    requires cur in ms
    ensures r.Success? ==> r.value.Keys == ms.Keys
    ensures r.Success? && AllNoDup(ms) ==> AllNoDup(r.value)
    decreases depth, ElementSize(el), 0
  {
    match el
    case TextElement(v) => Success(AppendText(ms, cur, v))
    case Placeable(e) => AfterPlaceable(ms, terms, cur, e, depth)
  }

  /** `_parse_placeable`: dispatch on the expression; literals are only logged. */
  function AfterPlaceable(ms: Messages, terms: Terms, cur: string, e: Expression, depth: nat): (r: Result<Messages, ParseError>)
    requires cur in ms
    ensures r.Success? ==> r.value.Keys == ms.Keys
    ensures r.Success? && AllNoDup(ms) ==> AllNoDup(r.value)
    decreases depth, ExpressionSize(e), 0
  {
    match e
    case VariableReference(id) => Success(AfterVariableReference(ms, cur, id))
    case TermReference(id) => AfterTermReference(ms, terms, cur, id)
    case SelectExpression(_, variants) => AfterSelect(ms, terms, cur, variants, depth)
    case FunctionReference(_, positional, _) =>
      FunctionReferenceEffect(ms, cur, positional);
      MergeKeepsNoDup(ms[cur].placeholders, VariableIds(positional));
      Success(AfterFunctionReference(ms, cur, positional))
    case MessageReference(id) => AfterMessageReference(ms, terms, cur, id, depth)
    case NestedPlaceable(inner) => AfterPlaceable(ms, terms, cur, inner, depth)
    case StringLiteral(_) => Success(ms)
    case NumberLiteral(_) => Success(ms)
  }

  lemma MergeKeepsNoDup(s: seq<string>, t: seq<string>)
    ensures NoDup(s) ==> NoDup(Merge(s, t))
  {
  }

  /** `_parse_select_expression`: the elements of the default variants, in
      order; the selector and every other variant are ignored. */
  function AfterSelect(ms: Messages, terms: Terms, cur: string, variants: seq<Variant>, depth: nat): (r: Result<Messages, ParseError>)
    requires cur in ms
    ensures r.Success? ==> r.value.Keys == ms.Keys
    ensures r.Success? && AllNoDup(ms) ==> AllNoDup(r.value)
    decreases depth, VariantsSize(variants), 0
  {
    if variants == [] then Success(ms)
    else
      assert VariantsSize(variants) == 1 + PatternSize(variants[0].value) + VariantsSize(variants[1..]);
      var ms1 :- if variants[0].default then AfterElements(ms, terms, cur, variants[0].value, depth) else Success(ms);
      AfterSelect(ms1, terms, cur, variants[1..], depth)
  }

  /** `_parse_message_reference`: an unknown message changes nothing; a known
      one is resolved first when it has no text yet, then its text is
      appended and its placeholders merged in, keeping order and skipping
      names already present. */
  function AfterMessageReference(ms: Messages, terms: Terms, cur: string, id: string, depth: nat): (r: Result<Messages, ParseError>)
    requires cur in ms
    ensures r.Success? ==> r.value.Keys == ms.Keys
    ensures r.Success? && AllNoDup(ms) ==> AllNoDup(r.value)
    ensures id !in ms ==> r == Success(ms)
    decreases depth, 0, 0
  {
    if id !in ms then Success(ms)
    else
      var ms1 :- if ms[id].resultText != "" then Success(ms)
                 else if depth == 0 then Failure(RecursionLimit(id))
                 else AfterResolve(ms, terms, id, depth - 1);
      Success(WithReferenced(ms1, cur, id))
  }

  /** The referenced message `id` once it has a text: its text appended to
      `cur`, its placeholders merged into those of `cur`. */
  function WithReferenced(ms: Messages, cur: string, id: string): (r: Messages)
    requires cur in ms && id in ms
    ensures r.Keys == ms.Keys
    ensures AllNoDup(ms) ==> AllNoDup(r)
  {
    var target := ms[id];
    var m := ms[cur];
    MergeKeepsNoDup(m.placeholders, target.placeholders);
    ms[cur := m.(resultText := m.resultText + target.resultText,
                 placeholders := Merge(m.placeholders, target.placeholders))]
  }

  /** The body of `_process_message_elements` after its skip guard: the
      message's raw elements, then its placeholders sorted. */
  function AfterResolve(ms: Messages, terms: Terms, n: string, depth: nat): (r: Result<Messages, ParseError>)
    requires n in ms
    ensures r.Success? ==> r.value.Keys == ms.Keys
    ensures r.Success? && AllNoDup(ms) ==> AllNoDup(r.value)
    ensures r.Success? ==> Sorted(r.value[n].placeholders)
    decreases depth, PatternSize(ms[n].rawElements) + 1, 0
  {
    var ms1 :- AfterElements(ms, terms, n, ms[n].rawElements, depth);
    var m := ms1[n];
    SortKeepsElements(m.placeholders);
    Success(ms1[n := m.(placeholders := Sort(m.placeholders))])
  }

  /** `_process_message_elements`: skipped when the message already has both
      text and placeholders. */
  function AfterProcessElements(ms: Messages, terms: Terms, n: string, depth: nat): (r: Result<Messages, ParseError>)
    requires n in ms
    ensures r.Success? ==> r.value.Keys == ms.Keys
    ensures r.Success? && AllNoDup(ms) ==> AllNoDup(r.value)
    ensures ms[n].resultText != "" && ms[n].placeholders != [] ==> r == Success(ms)
    ensures ms[n].resultText == "" || ms[n].placeholders == [] ==> r == AfterResolve(ms, terms, n, depth)
  {
    if ms[n].resultText != "" && ms[n].placeholders != [] then Success(ms)
    else AfterResolve(ms, terms, n, depth)
  }

  /** The second pass: every name of `names` in turn. */
  function AfterSecondPass(ms: Messages, terms: Terms, names: seq<string>, depth: nat): (r: Result<Messages, ParseError>)
    requires forall k :: k in names ==> k in ms
    ensures r.Success? ==> r.value.Keys == ms.Keys
    ensures r.Success? && AllNoDup(ms) ==> AllNoDup(r.value)
    decreases |names|
  {
    if names == [] then Success(ms)
    else
      var ms1 :- AfterProcessElements(ms, terms, names[0], depth);
      AfterSecondPass(ms1, terms, names[1..], depth)
  }

  /** `_get_processed_messages`: the messages with text or placeholders, in order. */
  function Processed(order: seq<string>, ms: Messages): (c: Catalog)
    requires forall k :: k in order ==> k in ms
    ensures forall k :: k in c.names <==> k in order && (ms[k].resultText != "" || ms[k].placeholders != [])
    ensures c.messages.Keys == set k | k in c.names
    ensures forall k :: k in c.messages ==> c.messages[k] == ms[k]
    ensures NoDup(order) ==> NoDup(c.names)
    decreases |order|
  {
    if order == [] then Catalog([], map[])
    else
      var rest := Processed(order[1..], ms);
      var k := order[0];
      if ms[k].resultText != "" || ms[k].placeholders != [] then
        Catalog([k] + rest.names, rest.messages[k := ms[k]])
      else rest
  }

  /** `parse` on a parser in state (order, ms, terms). */
  function ParseResult(order: seq<string>, ms: Messages, terms: Terms, resource: Resource, depth: nat): (r: Result<Catalog, ParseError>)
    requires OrderMatches(order, ms)
  {
    var (o1, ms1, terms1) := AfterFirstPass(order, ms, terms, resource);
    FirstPassShape(order, ms, terms, resource);
    var ms2 :- AfterSecondPass(ms1, terms1, o1, depth);
    Success(Processed(o1, ms2))
  }

  /** The first pass keeps the order in step with the messages, and every
      message it stores starts with no placeholders. */
  lemma {:induction false} FirstPassShape(order: seq<string>, ms: Messages, terms: Terms, entries: Resource)
    requires OrderMatches(order, ms)
    ensures var (o, m, _) := AfterFirstPass(order, ms, terms, entries);
            OrderMatches(o, m) && (SortedOutside(ms, {}) ==> SortedOutside(m, {})) &&
            (AllNoDup(ms) ==> AllNoDup(m))
    decreases |entries|
  {
    if entries != [] {
      match entries[0]
      case TermEntry(id, value) => FirstPassShape(order, ms, AfterTerm(terms, id, value), entries[1..]);
      case MessageEntry(id, value) => FirstPassShape(AddUnique(order, id), ms[id := NewMessage(id, value)], terms, entries[1..]);
      case Comment(_) => FirstPassShape(order, ms, terms, entries[1..]);
      case Junk(_) => FirstPassShape(order, ms, terms, entries[1..]);
    }
  }

  // ---------------------------------------------------------------------
  // Properties of the second pass
  // ---------------------------------------------------------------------

  /** Parsing `p + q` is parsing `p`, then `q` on the state reached. */
  lemma {:induction false} ElementsAppend(ms: Messages, terms: Terms, cur: string, p: Pattern, q: Pattern, depth: nat)
    requires cur in ms
    ensures var r := AfterElements(ms, terms, cur, p, depth);
            AfterElements(ms, terms, cur, p + q, depth) ==
            if r.Failure? then r else AfterElements(r.value, terms, cur, q, depth)
    decreases |p|
  {
    if p == [] {
      assert p + q == q;
    } else {
      assert (p + q)[0] == p[0] && (p + q)[1..] == p[1..] + q;
      var r1 := AfterElement(ms, terms, cur, p[0], depth);
      if r1.Success? {
        ElementsAppend(r1.value, terms, cur, p[1..], q, depth);
      }
    }
  }

  /** The elements of the default variants, in variant order. */
  function DefaultElements(variants: seq<Variant>): (p: Pattern)
    ensures forall el :: el in p ==> exists v :: v in variants && v.default && el in v.value
  {
    if variants == [] then []
    else if variants[0].default then variants[0].value + DefaultElements(variants[1..])
    else DefaultElements(variants[1..])
  }

  /** A select expression contributes exactly the elements of its default
      variants: the selector and the other variants play no part. */
  lemma {:induction false} SelectIsDefaultElements(ms: Messages, terms: Terms, cur: string, variants: seq<Variant>, depth: nat)
    requires cur in ms
    ensures AfterSelect(ms, terms, cur, variants, depth) == AfterElements(ms, terms, cur, DefaultElements(variants), depth)
    decreases |variants|
  {
    if variants != [] {
      var v := variants[0];
      if v.default {
        ElementsAppend(ms, terms, cur, v.value, DefaultElements(variants[1..]), depth);
        var r1 := AfterElements(ms, terms, cur, v.value, depth);
        if r1.Success? {
          SelectIsDefaultElements(r1.value, terms, cur, variants[1..], depth);
        }
      } else {
        SelectIsDefaultElements(ms, terms, cur, variants[1..], depth);
      }
    }
  }

  lemma {:induction false} ElementsKeepSorted(ms: Messages, terms: Terms, cur: string, p: Pattern, depth: nat, open: set<string>)
    requires cur in ms && cur in open && SortedOutside(ms, open)
    requires AfterElements(ms, terms, cur, p, depth).Success?
    ensures SortedOutside(AfterElements(ms, terms, cur, p, depth).value, open)
    decreases depth, PatternSize(p), 1
  {
    if p != [] {
      var r1 := AfterElement(ms, terms, cur, p[0], depth);
      assert r1.Success?;
      ElementKeepsSorted(ms, terms, cur, p[0], depth, open);
      ElementsKeepSorted(r1.value, terms, cur, p[1..], depth, open);
    }
  }

  lemma {:induction false} ElementKeepsSorted(ms: Messages, terms: Terms, cur: string, el: PatternElement, depth: nat, open: set<string>)
    requires cur in ms && cur in open && SortedOutside(ms, open)
    requires AfterElement(ms, terms, cur, el, depth).Success?
    ensures SortedOutside(AfterElement(ms, terms, cur, el, depth).value, open)
    decreases depth, ElementSize(el), 0
  {
    if el.Placeable? {
      PlaceableKeepsSorted(ms, terms, cur, el.expression, depth, open);
    }
  }

  lemma {:induction false} PlaceableKeepsSorted(ms: Messages, terms: Terms, cur: string, e: Expression, depth: nat, open: set<string>)
    requires cur in ms && cur in open && SortedOutside(ms, open)
    requires AfterPlaceable(ms, terms, cur, e, depth).Success?
    ensures SortedOutside(AfterPlaceable(ms, terms, cur, e, depth).value, open)
    decreases depth, ExpressionSize(e), 0
  {
    match e
    case SelectExpression(_, variants) => SelectKeepsSorted(ms, terms, cur, variants, depth, open);
    case MessageReference(id) => MessageReferenceKeepsSorted(ms, terms, cur, id, depth, open);
    case NestedPlaceable(inner) => PlaceableKeepsSorted(ms, terms, cur, inner, depth, open);
    case _ =>
  }

  lemma {:induction false} SelectKeepsSorted(ms: Messages, terms: Terms, cur: string, variants: seq<Variant>, depth: nat, open: set<string>)
    requires cur in ms && cur in open && SortedOutside(ms, open)
    requires AfterSelect(ms, terms, cur, variants, depth).Success?
    ensures SortedOutside(AfterSelect(ms, terms, cur, variants, depth).value, open)
    decreases depth, VariantsSize(variants), 0
  {
    if variants != [] {
      assert VariantsSize(variants) == 1 + PatternSize(variants[0].value) + VariantsSize(variants[1..]);
      var r1 := if variants[0].default then AfterElements(ms, terms, cur, variants[0].value, depth) else Success(ms);
      assert r1.Success?;
      if variants[0].default {
        ElementsKeepSorted(ms, terms, cur, variants[0].value, depth, open);
      }
      SelectKeepsSorted(r1.value, terms, cur, variants[1..], depth, open);
    }
  }

  lemma {:induction false} MessageReferenceKeepsSorted(ms: Messages, terms: Terms, cur: string, id: string, depth: nat, open: set<string>)
    requires cur in ms && cur in open && SortedOutside(ms, open)
    requires AfterMessageReference(ms, terms, cur, id, depth).Success?
    ensures SortedOutside(AfterMessageReference(ms, terms, cur, id, depth).value, open)
    decreases depth, 0, 1
  {
    if id in ms {
      if ms[id].resultText != "" {
        assert AfterMessageReference(ms, terms, cur, id, depth) == Success(WithReferenced(ms, cur, id));
        WithReferencedKeepsSorted(ms, cur, id, open);
      } else {
        UnresolvedReferenceKeepsSorted(ms, terms, cur, id, depth, open);
      }
    }
  }

  /** A referenced message without a text is resolved first, which unsorts
      nothing outside `open`. */
  lemma {:induction false} UnresolvedReferenceKeepsSorted(ms: Messages, terms: Terms, cur: string, id: string, depth: nat, open: set<string>)
    requires cur in ms && cur in open && SortedOutside(ms, open)
    requires id in ms && ms[id].resultText == ""
    requires AfterMessageReference(ms, terms, cur, id, depth).Success?
    ensures SortedOutside(AfterMessageReference(ms, terms, cur, id, depth).value, open)
    decreases depth, 0, 0
  {
    var r := AfterResolve(ms, terms, id, depth - 1);
    ResolveSorts(ms, terms, id, depth - 1, open);
    SortedOutsideGrows(r.value, open - {id}, open);
    WithReferencedKeepsSorted(r.value, cur, id, open);
  }

  lemma SortedOutsideGrows(ms: Messages, open: set<string>, more: set<string>)
    requires open <= more && SortedOutside(ms, open)
    ensures SortedOutside(ms, more)
  {
  }

  /** Taking in a referenced message changes only `cur`, which is open. */
  lemma WithReferencedKeepsSorted(ms: Messages, cur: string, id: string, open: set<string>)
    requires cur in ms && id in ms && cur in open && SortedOutside(ms, open)
    ensures SortedOutside(WithReferenced(ms, cur, id), open)
  {
  }

  /** Resolving `n` leaves it sorted and unsorts nothing outside `open`. */
  lemma {:induction false} ResolveSorts(ms: Messages, terms: Terms, n: string, depth: nat, open: set<string>)
    requires n in ms && SortedOutside(ms, open)
    requires AfterResolve(ms, terms, n, depth).Success?
    ensures SortedOutside(AfterResolve(ms, terms, n, depth).value, open - {n})
    decreases depth, PatternSize(ms[n].rawElements) + 1, 0
  {
    ElementsKeepSorted(ms, terms, n, ms[n].rawElements, depth, open + {n});
  }

  lemma {:induction false} SecondPassSorts(ms: Messages, terms: Terms, names: seq<string>, depth: nat)
    requires forall k :: k in names ==> k in ms
    requires SortedOutside(ms, {})
    requires AfterSecondPass(ms, terms, names, depth).Success?
    ensures SortedOutside(AfterSecondPass(ms, terms, names, depth).value, {})
    decreases |names|
  {
    if names != [] {
      var n := names[0];
      var r1 := AfterProcessElements(ms, terms, n, depth);
      assert r1.Success?;
      if !(ms[n].resultText != "" && ms[n].placeholders != []) {
        ResolveSorts(ms, terms, n, depth, {});
        assert {} - {n} == {};
      }
      SecondPassSorts(r1.value, terms, names[1..], depth);
    }
  }

  /** After `parse`, every returned message has sorted placeholders without
      repetition, provided the parser started from such a state (a new
      parser does). */
  lemma ParsedPlaceholdersSortedUnique(order: seq<string>, ms: Messages, terms: Terms, resource: Resource, depth: nat)
    requires OrderMatches(order, ms) && SortedOutside(ms, {}) && AllNoDup(ms)
    requires ParseResult(order, ms, terms, resource, depth).Success?
    ensures var c := ParseResult(order, ms, terms, resource, depth).value;
            forall k :: k in c.messages ==> Sorted(c.messages[k].placeholders) && NoDup(c.messages[k].placeholders)
  {
    var (o1, ms1, terms1) := AfterFirstPass(order, ms, terms, resource);
    FirstPassShape(order, ms, terms, resource);
    SecondPassSorts(ms1, terms1, o1, depth);
  }

  /** Resolving a message whose raw elements are one text element. */
  /** A one-element pattern has the effect of its element. */
  lemma ElementsOfOne(ms: Messages, terms: Terms, cur: string, el: PatternElement, depth: nat)
    requires cur in ms
    ensures AfterElements(ms, terms, cur, [el], depth) == AfterElement(ms, terms, cur, el, depth)
  {
    assert [el][1..] == [];
  }

  /** Resolving adds nothing of its own when the elements leave no placeholders. */
  lemma ResolveWithoutPlaceholders(ms: Messages, terms: Terms, n: string, depth: nat, ms1: Messages)
    requires n in ms && AfterElements(ms, terms, n, ms[n].rawElements, depth) == Success(ms1)
    requires n in ms1 && ms1[n].placeholders == []
    ensures AfterResolve(ms, terms, n, depth) == Success(ms1)
  {
    assert Sort([]) == [];
    assert ms1[n := ms1[n].(placeholders := Sort(ms1[n].placeholders))] == ms1;
  }

  /** Resolving `n`, whose raw elements are one text element `v`. */
  lemma ResolveSingleText(ms: Messages, terms: Terms, n: string, v: string, depth: nat)
    requires n in ms && ms[n].rawElements == [TextElement(v)] && ms[n].placeholders == []
    ensures AfterResolve(ms, terms, n, depth) == Success(AppendText(ms, n, v))
  {
    ElementsOfOne(ms, terms, n, TextElement(v), depth);
    ResolveWithoutPlaceholders(ms, terms, n, depth, AppendText(ms, n, v));
  }

  /** A reference from `n` to the unresolved message `id` whose raw
      elements are one text element `v` resolves `id` first. */
  lemma ReferenceToSingleText(ms: Messages, terms: Terms, n: string, id: string, v: string, depth: nat)
    requires n in ms && id in ms && n != id && ms[n].placeholders == []
    requires ms[id].rawElements == [TextElement(v)] && ms[id].placeholders == [] && ms[id].resultText == ""
    requires depth > 0
    ensures AfterMessageReference(ms, terms, n, id, depth) == Success(AppendText(AppendText(ms, id, v), n, v))
  {
    ResolveSingleText(ms, terms, id, v, depth - 1);
    var ms1 := AppendText(ms, id, v);
    UnresolvedReference(ms, terms, n, id, depth, ms1);
    assert ms1[id].resultText == v by { assert "" + v == v; }
    assert Merge<string>([], []) == [];
  }

  /** A reference to a message with no text yet resolves it, then appends. */
  lemma UnresolvedReference(ms: Messages, terms: Terms, cur: string, id: string, depth: nat, ms1: Messages)
    requires cur in ms && id in ms && ms[id].resultText == "" && depth > 0
    requires AfterResolve(ms, terms, id, depth - 1) == Success(ms1)
    ensures cur in ms1 && id in ms1
    ensures AfterMessageReference(ms, terms, cur, id, depth)
         == Success(ms1[cur := ms1[cur].(resultText := ms1[cur].resultText + ms1[id].resultText,
                                         placeholders := Merge(ms1[cur].placeholders, ms1[id].placeholders))])
  {
  }

  /** Resolving `n`, whose raw elements are one reference to the unresolved,
      placeholder-free message `id`, with text `v`. */
  lemma ResolveSingleReference(ms: Messages, terms: Terms, n: string, id: string, v: string, depth: nat)
    requires n in ms && id in ms && n != id
    requires ms[n].rawElements == [Placeable(MessageReference(id))] && ms[n].placeholders == []
    requires ms[id].rawElements == [TextElement(v)] && ms[id].placeholders == [] && ms[id].resultText == ""
    requires depth > 0
    ensures AfterResolve(ms, terms, n, depth) == Success(AppendText(AppendText(ms, id, v), n, v))
  {
    var ms2 := AppendText(AppendText(ms, id, v), n, v);
    ReferenceToSingleText(ms, terms, n, id, v, depth);
    ElementsOfOne(ms, terms, n, Placeable(MessageReference(id)), depth);
    assert AfterElements(ms, terms, n, ms[n].rawElements, depth) == Success(ms2);
    ResolveWithoutPlaceholders(ms, terms, n, depth, ms2);
  }

  /** The skip guard needs placeholders as well as text: a message with one
      text element `v` that was already resolved (as the target of an
      earlier reference) is resolved again, and its text becomes `v + v`. */
  lemma ResolvedTargetDoubled(ms: Messages, terms: Terms, n: string, v: string, depth: nat)
    requires n in ms && ms[n].rawElements == [TextElement(v)] && ms[n].placeholders == [] && ms[n].resultText == v
    ensures AfterProcessElements(ms, terms, n, depth).Success?
    ensures AfterProcessElements(ms, terms, n, depth).value[n].resultText == v + v
  {
    ResolveSingleText(ms, terms, n, v, depth);
  }

  // ---------------------------------------------------------------------
  // The parser object
  // ---------------------------------------------------------------------

  class Parser {
    /** The keys of `messages` in insertion order (Python dict order). */
    var order: seq<string>
    var messages: Messages
    var terms: Terms

    ghost predicate Valid()
      reads this
    {
      OrderMatches(order, messages)
    }

    constructor ()
      ensures Valid() && order == [] && messages == map[] && terms == map[]
    {
      order := [];
      messages := map[];
      terms := map[];
    }

    method ProcessTerm(id: string, value: Pattern)
      modifies this
      ensures terms == AfterTerm(old(terms), id, value)
      ensures order == old(order) && messages == old(messages)
    {
      var i := 0;
      while i < |value|
        invariant 0 <= i <= |value|
        invariant AfterTerm(old(terms), id, value) == AfterTerm(terms, id, value[i..])
        invariant order == old(order) && messages == old(messages)
      {
        assert value[i..][0] == value[i] && value[i..][1..] == value[i + 1..];
        if value[i].TextElement? {
          terms := terms[id := value[i].value];
        }
        i := i + 1;
      }
    }

    method ProcessMessage(id: string, value: Option<Pattern>)
      requires Valid()
      modifies this
      ensures Valid()
      ensures messages == old(messages)[id := NewMessage(id, value)]
      ensures order == AddUnique(old(order), id) && terms == old(terms)
    {
      var raw := [];
      if value.Some? {
        raw := value.value;
      }
      messages := messages[id := Message(id, "", raw, [])];
      if id !in order {
        order := order + [id];
      }
    }

    method ParseVariableReference(cur: string, id: string)
      requires cur in messages
      modifies this
      ensures messages == AfterVariableReference(old(messages), cur, id)
      ensures order == old(order) && terms == old(terms)
    {
      var m := messages[cur];
      if id !in m.placeholders {
        m := m.(placeholders := m.placeholders + [id]);
      }
      m := m.(resultText := m.resultText + VarText(id));
      messages := messages[cur := m];
    }

    method ParseTermReference(cur: string, id: string) returns (err: Option<ParseError>)
      requires cur in messages
      modifies this
      ensures Matches(AfterTermReference(old(messages), terms, cur, id), err, messages)
      ensures order == old(order) && terms == old(terms)
    {
      if id !in terms {
        return Some(TermNotFound(id));
      }
      var m := messages[cur];
      messages := messages[cur := m.(resultText := m.resultText + terms[id])];
      err := None;
    }

    method ParseMessageReference(cur: string, id: string, depth: nat) returns (err: Option<ParseError>)
      requires cur in messages
      modifies this
      ensures Matches(AfterMessageReference(old(messages), terms, cur, id, depth), err, messages)
      ensures order == old(order) && terms == old(terms)
      decreases depth, 0, 0
    {
      if id !in messages {
        return None;
      }
      if messages[id].resultText == "" {
        if depth == 0 {
          return Some(RecursionLimit(id));
        }
        err := Resolve(id, depth - 1);
        if err.Some? {
          return;
        }
      }
      TakeReferenced(cur, id);
      err := None;
    }

    /** The last step of `_parse_message_reference`: the `+=` of the text
        and the loop that merges the placeholders. */
    method TakeReferenced(cur: string, id: string)
      requires cur in messages && id in messages
      modifies this
      ensures messages == WithReferenced(old(messages), cur, id)
      ensures order == old(order) && terms == old(terms)
    {
      var target := messages[id];
      var m := messages[cur];
      var placeholders := MergePlaceholders(m.placeholders, target.placeholders);
      messages := messages[cur := m.(resultText := m.resultText + target.resultText, placeholders := placeholders)];
    }

    method ParseFunctionReference(cur: string, positional: seq<Expression>)
      requires cur in messages
      modifies this
      ensures messages == AfterFunctionReference(old(messages), cur, positional)
      ensures order == old(order) && terms == old(terms)
    {
      var i := 0;
      while i < |positional|
        invariant 0 <= i <= |positional|
        invariant cur in messages
        invariant AfterFunctionReference(old(messages), cur, positional) == AfterFunctionReference(messages, cur, positional[i..])
        invariant order == old(order) && terms == old(terms)
      {
        assert positional[i..][0] == positional[i] && positional[i..][1..] == positional[i + 1..];
        if positional[i].VariableReference? {
          ParseVariableReference(cur, positional[i].id);
        }
        i := i + 1;
      }
    }

    method ParseSelectExpression(cur: string, variants: seq<Variant>, depth: nat) returns (err: Option<ParseError>)
      requires cur in messages
      modifies this
      ensures Matches(AfterSelect(old(messages), terms, cur, variants, depth), err, messages)
      ensures order == old(order) && terms == old(terms)
      decreases depth, VariantsSize(variants), 0
    {
      var i := 0;
      while i < |variants|
        invariant 0 <= i <= |variants|
        invariant cur in messages
        invariant AfterSelect(old(messages), terms, cur, variants, depth) == AfterSelect(messages, terms, cur, variants[i..], depth)
        invariant order == old(order) && terms == old(terms)
      {
        assert variants[i..][0] == variants[i] && variants[i..][1..] == variants[i + 1..];
        if variants[i].default {
          VariantWithinVariants(variants, i);
          err := ParseElements(cur, variants[i].value, depth);
          if err.Some? {
            return;
          }
        }
        i := i + 1;
      }
      err := None;
    }

    method ParsePlaceable(cur: string, e: Expression, depth: nat) returns (err: Option<ParseError>)
      requires cur in messages
      modifies this
      ensures Matches(AfterPlaceable(old(messages), terms, cur, e, depth), err, messages)
      ensures order == old(order) && terms == old(terms)
      decreases depth, ExpressionSize(e), 0
    {
      err := None;
      match e
      case VariableReference(id) =>
        ParseVariableReference(cur, id);
      case TermReference(id) =>
        err := ParseTermReference(cur, id);
      case SelectExpression(_, variants) =>
        err := ParseSelectExpression(cur, variants, depth);
      case FunctionReference(_, positional, _) =>
        ParseFunctionReference(cur, positional);
      case MessageReference(id) =>
        err := ParseMessageReference(cur, id, depth);
      case NestedPlaceable(inner) =>
        err := ParsePlaceable(cur, inner, depth);
      case StringLiteral(_) =>
      case NumberLiteral(_) =>
    }

    /** The element loop shared by `_process_message_elements` and the
        default variants of a select expression. */
    method ParseElements(cur: string, p: Pattern, depth: nat) returns (err: Option<ParseError>)
      requires cur in messages
      modifies this
      ensures Matches(AfterElements(old(messages), terms, cur, p, depth), err, messages)
      ensures order == old(order) && terms == old(terms)
      decreases depth, PatternSize(p), 1
    {
      var i := 0;
      while i < |p|
        invariant 0 <= i <= |p|
        invariant cur in messages
        invariant AfterElements(old(messages), terms, cur, p, depth) == AfterElements(messages, terms, cur, p[i..], depth)
        invariant order == old(order) && terms == old(terms)
      {
        assert p[i..][0] == p[i] && p[i..][1..] == p[i + 1..];
        match p[i] {
          case TextElement(v) =>
            var m := messages[cur];
            messages := messages[cur := m.(resultText := m.resultText + v)];
          case Placeable(e) =>
            ElementWithinPattern(p, i);
            err := ParsePlaceable(cur, e, depth);
            if err.Some? {
              return;
            }
        }
        i := i + 1;
      }
      err := None;
    }

    /** `_process_message_elements` past its skip guard. */
    method Resolve(n: string, depth: nat) returns (err: Option<ParseError>)
      requires n in messages
      modifies this
      ensures Matches(AfterResolve(old(messages), terms, n, depth), err, messages)
      ensures order == old(order) && terms == old(terms)
      decreases depth, PatternSize(messages[n].rawElements) + 1, 0
    {
      err := ParseElements(n, messages[n].rawElements, depth);
      if err.Some? {
        return;
      }
      var m := messages[n];
      messages := messages[n := m.(placeholders := Sort(m.placeholders))];
    }

    method ProcessMessageElements(n: string, depth: nat) returns (err: Option<ParseError>)
      requires n in messages
      modifies this
      ensures Matches(AfterProcessElements(old(messages), terms, n, depth), err, messages)
      ensures order == old(order) && terms == old(terms)
    {
      if messages[n].resultText != "" && messages[n].placeholders != [] {
        return None;
      }
      err := Resolve(n, depth);
    }

    function GetProcessedMessages(): (c: Catalog)
      requires Valid()
      reads this
      ensures forall k :: k in c.names <==> k in messages && (messages[k].resultText != "" || messages[k].placeholders != [])
      ensures NoDup(c.names)
    {
      Processed(order, messages)
    }

    /** The first loop of `parse`. */
    method FirstPass(resource: Resource)
      requires Valid()
      modifies this
      ensures Valid()
      ensures (order, messages, terms) == AfterFirstPass(old(order), old(messages), old(terms), resource)
    {
      var i := 0;
      while i < |resource|
        invariant 0 <= i <= |resource|
        invariant Valid()
        invariant AfterFirstPass(old(order), old(messages), old(terms), resource) == AfterFirstPass(order, messages, terms, resource[i..])
      {
        assert resource[i..][0] == resource[i] && resource[i..][1..] == resource[i + 1..];
        match resource[i] {
          case TermEntry(id, body) =>
            ProcessTerm(id, body);
          case MessageEntry(id, value) =>
            ProcessMessage(id, value);
          case Comment(_) =>
          case Junk(_) =>
        }
        i := i + 1;
      }
    }

    /** The second loop of `parse`: every stored message in order. */
    method SecondPass(depth: nat) returns (err: Option<ParseError>)
      requires Valid()
      modifies this
      ensures order == old(order) && terms == old(terms)
      ensures Matches(AfterSecondPass(old(messages), terms, order, depth), err, messages)
      ensures err.None? ==> Valid()
    {
      var j := 0;
      while j < |order|
        invariant 0 <= j <= |order|
        invariant order == old(order) && terms == old(terms)
        invariant messages.Keys == old(messages).Keys && Valid()
        invariant AfterSecondPass(old(messages), terms, order, depth) == AfterSecondPass(messages, terms, order[j..], depth)
      {
        assert order[j..][0] == order[j] && order[j..][1..] == order[j + 1..];
        err := ProcessMessageElements(order[j], depth);
        if err.Some? {
          return;
        }
        j := j + 1;
      }
      err := None;
    }

    method Parse(resource: Resource, depth: nat) returns (r: Result<Catalog, ParseError>)
      requires Valid()
      modifies this
      ensures r == ParseResult(old(order), old(messages), old(terms), resource, depth)
      ensures r.Success? ==> Valid()
    {
      FirstPass(resource);
      var err := SecondPass(depth);
      if err.Some? {
        return Failure(err.value);
      }
      r := Success(GetProcessedMessages());
    }
  }

  /** The loop of `_parse_message_reference` that appends each name of
      `from` missing from `into`. */
  method MergePlaceholders(into: seq<string>, from: seq<string>) returns (r: seq<string>)
    ensures r == Merge(into, from)
  {
    r := into;
    var i := 0;
    while i < |from|
      invariant 0 <= i <= |from|
      invariant Merge(into, from) == Merge(r, from[i..])
    {
      assert from[i..][0] == from[i] && from[i..][1..] == from[i + 1..];
      if from[i] !in r {
        r := r + [from[i]];
      }
      i := i + 1;
    }
  }

  /** `get_messages`: a new parser applied to one resource. */
  method GetMessages(resource: Resource, depth: nat) returns (r: Result<Catalog, ParseError>)
    ensures r == ParseResult([], map[], map[], resource, depth)
    ensures r.Success? ==> forall k :: k in r.value.messages ==>
              Sorted(r.value.messages[k].placeholders) && NoDup(r.value.messages[k].placeholders)
  {
    var parser := new Parser();
    r := parser.Parse(resource, depth);
    if r.Success? {
      ParsedPlaceholdersSortedUnique([], map[], map[], resource, depth);
    }
  }
}
