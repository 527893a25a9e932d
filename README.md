# fluentogram, modelled in Dafny

fluentogram wraps Project Fluent translations for Python bots. This
project models its core in Dafny 4.11 and proves properties of the model.
The core has two halves.

- **Stub generation.** This turns an `.ftl` catalog into a `.pyi`
  stub file: one typed `@staticmethod` per message, grouped into one class
  per key prefix. Two versions exist and both are modelled.
  - The current stub generator (`fluentogram/stub_generator/`: `parser.py`,
    `tree.py`, `renderable.py`, `templates.py`, `stubs.py`, `generator.py`):
    - `StubParser` resolves each message to a text and its sorted placeholders.
    - `StubTree` files the messages into a tree keyed by the parts of the key.
    - `StubClasses`, `StubRenderable` and `StubTemplates` are the render objects and their Jinja2 templates.
    - `StubStubs` walks the tree into classes.
    - `StubGenerator` covers the directory scan, the key-conflict check and the output file.
  - The legacy typing generator (`fluentogram/typing_generator/`):
    - `LegacyParsedFtl` turns a message into a node and args, re-queueing
      messages whose references are not known yet.
    - `LegacyTree` is the tree of node objects shared by `elements` and `children`.
    - `LegacyRenderable` and `LegacyStubs` are the knots and the stub text.
  - `FtlToStub` (`fluentogram/cli/ftl_to_stub.py`) is the command-line
    converter: flat keys to a nested dict, then nested classes.
- **Runtime lookup.**
  - `Translators` models the translator interface.
  - The runners are `Runner`, `ImplRunner`, `SrcRunner` and `StubsRunner`.
    Each asks its translators in order for a key and returns the first
    text.
  - `AttribTracing` is the attribute tracer that builds a key from
    `runner.a.b.c`.
  - The hubs are `Hub`, `ImplHub`, `SrcHub` and `OldHub`, with the
    locale map and fallback in `LocalesMap`. A hub picks the translator
    chain of a locale and falls back to the root locale.

Shared helpers:
- `Wrappers`: Option and Result.
- `Text`: Python string operations.
  - `split`, `join`, `rstrip`, `capitalize`, `title`;
  - MarkupSafe escaping;
  - sorting.
- `Dicts`: insertion-ordered dicts.
- `FluentAst`: the fluent.syntax AST.
- `Jinja`: template filling with autoescape.

Each core function becomes one of three things:
- a Dafny function, when it only computes;
- a class method whose `ensures` ties the new state to a specification
  function, when it updates an object in place;
- a method with a loop and its invariants, when it loops.

The properties are then proved about the specification functions.

Rows whose third column starts with "example:" are concrete instances.
Each runs one concrete input through the model and pins down the exact
output. They illustrate the general lemmas and add no property of their
own.

`FluentAst.ElementWithinPattern`, `FluentAst.VariantWithinVariants` and
`FluentAst.ExpressionWithinExpressions` have no row. They only bound the
size of a child node by its parent's, so that recursion over the AST
terminates, and state nothing about the source.

## Model

| member | source | states |
|---|---|---|
| Text.JoinSplit | fluentogram/stub_generator/tree.py:29 | `str.split` loses nothing: joining the parts with the separator gives the key back |
| Text.SplitInjective | fluentogram/stub_generator/tree.py:29 | two different keys never split into the same path |
| Text.SplitCharCount | fluentogram/stub_generator/generator.py:33-34 | a name contains "-" exactly when splitting it at "-" gives more than one part |
| Text.SplitNoSep | fluentogram/stub_generator/templates.py:14 | no part of `split(c)` contains `c` |
| Text.Capitalize | fluentogram/stub_generator/templates.py:14 | `str.capitalize` upper-cases the first character, lower-cases the rest and keeps the length |
| Text.Sort | fluentogram/stub_generator/generator.py:43 | `sorted` gives an ordered permutation of its input |
| Text.Dedup | fluentogram/typing_generator/parsed_ftl.py:178 | `OrderedSet` keeps every element once and no other |
| Text.RStrip | fluentogram/runner.py:33 | `rstrip(chars)` removes exactly the longest tail made of those characters |
| Text.RStripSpace | fluentogram/stub_generator/templates.py:93 | `rstrip()` removes exactly the longest whitespace tail |
| Text.AddUnique | fluentogram/stub_generator/parser.py:34-35 | `if x not in s: s.append(x)`: the list gains `x` only when absent, keeps its front and stays duplicate-free |
| Text.Merge | fluentogram/stub_generator/parser.py:50-52 | the merge loop: the original list stays in front, exactly the elements of both are present, and no duplicate arises |
| Text.SplitFrom | fluentogram/stub_generator/tree.py:29 | defines the left-to-right scan of `str.split` with a non-empty separator, from a piece already begun |
| Text.Split | fluentogram/stub_generator/tree.py:29 | defines `s.split(sep)` for a non-empty separator; it always gives at least one part |
| Text.Join | fluentogram/stub_generator/generator.py:43 | defines `sep.join(parts)` |
| Text.UpperChar | fluentogram/cli/ftl_to_stub.py:64 | defines `str.upper` on one character, for ASCII letters |
| Text.LowerChar | fluentogram/stub_generator/templates.py:14 | defines `str.lower` on one character, for ASCII letters |
| Text.Lower | fluentogram/stub_generator/templates.py:14 | `str.lower` keeps the length and lowers each character |
| Text.TitleFrom | fluentogram/stub_generator/renderable.py:14 | defines the scan of `str.title`: a cased character is upper-cased after an uncased one and lower-cased after a cased one |
| Text.Title | fluentogram/stub_generator/renderable.py:12-14 | `str.title` keeps the length |
| Text.ReplaceChar | fluentogram/stub_generator/templates.py:14 | `value.replace("_", "-")` keeps the length and replaces exactly the occurrences of the one character |
| Text.StrLe | fluentogram/stub_generator/parser.py:138 | defines Python's `<=` on str, which `sorted` uses: lexicographic by code point |
| Text.IsSpace | fluentogram/stub_generator/templates.py:93 | defines the characters `str.isspace` accepts, which `rstrip()` removes |
| Text.DropLast | fluentogram/src/impl/runner.py:33 | `s[:-1]` is `s` without its last character, and "" for "" |
| Text.EscapeChar | fluentogram/stub_generator/renderable.py:10 | MarkupSafe's escape of one character: `&`, `<`, `>`, `'` and `"` become entities and every other character stays |
| Text.Escape | fluentogram/stub_generator/renderable.py:10 | the autoescape of a `{{ }}` value: each character escaped in turn, never shorter than the input |
| Text.EscapeAppend | fluentogram/stub_generator/renderable.py:10 | escaping distributes over concatenation |
| Text.EscapePlain | fluentogram/stub_generator/renderable.py:10 | text without any of the five special characters is left as it is |
| Dicts.Put | fluentogram/stub_generator/generator.py:53-56 | `d[k] = v`: the entry is set, a new key goes last and an existing one keeps its place, and a well-formed dict stays well-formed |
| Dicts.SetDefault | fluentogram/cli/ftl_to_stub.py:46 | `d.setdefault(k, v)`: a present key leaves the dict as it is, an absent one is put with `v` |
| Dicts.Update | fluentogram/stub_generator/generator.py:80 | defines `d.update(e)`: every key of `e` put over `d`, in `e`'s order |
| Dicts.UpdateKeysKeys | fluentogram/stub_generator/generator.py:80 | an update keeps the dict well formed, keeps the old keys in front and adds exactly the new ones |
| Dicts.UpdateKeysEntries | fluentogram/stub_generator/generator.py:80 | after an update, each updated key holds the new value and every other key keeps its old one |
| Dicts.UpdateIsUnion | fluentogram/stub_generator/generator.py:80 | `update` is a right-biased union: the entries are `d + e`, and `d`'s keys stay in front in their order |
| Dicts.PutTwice | fluentogram/stub_generator/generator.py:52-54 | setting a key twice leaves the second value, at the place the first one took |
| Jinja.Fill | fluentogram/stub_generator/renderable.py:10-30 | defines `Template.render` under autoescape: literal text as written and each `{{ }}` value escaped, in order |
| Jinja.FillConcat | fluentogram/stub_generator/renderable.py:29-30 | rendering a template made of two parts gives the two renderings one after the other |
| StubParser.AppendText | fluentogram/stub_generator/parser.py:36 | appending to the current message's text changes only that message's `result_text`, by exactly the appended string |
| StubParser.LastTextIsLast | fluentogram/stub_generator/parser.py:25-27 | `LastText` is None iff the term has no text element; otherwise it is the value of a text element that no later text element follows |
| StubParser.AfterTermPrefix | fluentogram/stub_generator/parser.py:25-31 | the loop of `process_term` over `p + [e]` is the loop over `p` followed by `e` alone |
| StubParser.TermKeepsLastText | fluentogram/stub_generator/parser.py:24-31 | after `process_term` the term's stored text is the value of its last text element; a term with no text element leaves the table unchanged |
| StubParser.NewMessage | fluentogram/stub_generator/parser.py:120-135 | a message record starts with empty text and no placeholders, and keeps the raw elements (none when the message has no value) |
| StubParser.AfterVariableReference | fluentogram/stub_generator/parser.py:33-36 | the name joins the placeholders iff it is not there yet (the earlier ones stay in front, no duplicate arises); `{ $name }` joins the text; no other message changes |
| StubParser.AfterTermReference | fluentogram/stub_generator/parser.py:38-39 | fails with TermNotFound iff the term is undeclared (the KeyError); otherwise the term's text is appended |
| StubParser.VariableIds | fluentogram/stub_generator/parser.py:75-77 | a name is collected iff it is a variable-reference positional argument |
| StubParser.AfterFunctionReference | fluentogram/stub_generator/parser.py:73-99 | only the current message changes, and its name and raw elements stay |
| StubParser.FunctionReferenceEffect | fluentogram/stub_generator/parser.py:73-99 | a function call adds `{ $x }` for each variable-reference positional argument, in order, and merges their names into the placeholders; the function name and the named arguments add nothing |
| StubParser.AfterElements | fluentogram/stub_generator/parser.py:146-152 | the element loop keeps the set of messages and keeps every placeholder list duplicate-free |
| StubParser.AfterElement | fluentogram/stub_generator/parser.py:147-150 | one element keeps the set of messages and keeps placeholder lists duplicate-free |
| StubParser.AfterPlaceable | fluentogram/stub_generator/parser.py:56-71 | the dispatch on an expression keeps the set of messages and keeps placeholder lists duplicate-free |
| StubParser.AfterSelect | fluentogram/stub_generator/parser.py:101-118 | the select loop keeps the set of messages and keeps placeholder lists duplicate-free |
| StubParser.AfterMessageReference | fluentogram/stub_generator/parser.py:41-54 | a reference to an unknown message changes nothing; otherwise the set of messages stays the same and placeholder lists stay duplicate-free |
| StubParser.AfterResolve | fluentogram/stub_generator/parser.py:146-154 | resolving a message keeps the set of messages and placeholder lists duplicate-free, and leaves this message's placeholders sorted |
| StubParser.AfterProcessElements | fluentogram/stub_generator/parser.py:140-154 | a message that has both text and placeholders is skipped; any other message is resolved |
| StubParser.AfterSecondPass | fluentogram/stub_generator/parser.py:165-166 | the second pass keeps the set of messages and keeps placeholder lists duplicate-free |
| StubParser.Processed | fluentogram/stub_generator/parser.py:170-173 | a name is returned iff its message has text or placeholders; the names keep insertion order without repetition, and each maps to its message unchanged |
| StubParser.FirstPassShape | fluentogram/stub_generator/parser.py:158-162 | the first pass keeps the insertion order in step with the stored messages (a repeated id keeps its place), and keeps placeholders sorted and duplicate-free |
| StubParser.ElementsAppend | fluentogram/stub_generator/parser.py:146-152 | parsing `p + q` is parsing `p`, then `q` from the state reached, and a failure in `p` stops it |
| StubParser.DefaultElements | fluentogram/stub_generator/parser.py:105-108 | every element collected comes from a default variant |
| StubParser.SelectIsDefaultElements | fluentogram/stub_generator/parser.py:101-118 | a select expression has exactly the effect of the elements of its default variants, in order; the selector and the other variants play no part |
| StubParser.ElementsKeepSorted | fluentogram/stub_generator/parser.py:146-152 | the element loop leaves the placeholders of every message outside the open set sorted |
| StubParser.ElementKeepsSorted | fluentogram/stub_generator/parser.py:147-150 | one element leaves messages outside the open set sorted |
| StubParser.PlaceableKeepsSorted | fluentogram/stub_generator/parser.py:56-71 | a placeable leaves messages outside the open set sorted |
| StubParser.SelectKeepsSorted | fluentogram/stub_generator/parser.py:101-118 | a select expression leaves messages outside the open set sorted |
| StubParser.MessageReferenceKeepsSorted | fluentogram/stub_generator/parser.py:41-54 | resolving a referenced message leaves messages outside the open set sorted |
| StubParser.ResolveSorts | fluentogram/stub_generator/parser.py:137-154 | resolving `n` sorts `n`'s placeholders and leaves every other message outside the open set sorted |
| StubParser.SecondPassSorts | fluentogram/stub_generator/parser.py:164-166 | after the second pass every message's placeholders are sorted |
| StubParser.ParsedPlaceholdersSortedUnique | fluentogram/stub_generator/parser.py:156-173 | every message `parse` returns has sorted placeholders without repetition |
| StubParser.ResolveSingleText | fluentogram/stub_generator/parser.py:140-154 | a message made of one text element `v` resolves to its old text followed by `v` |
| StubParser.ReferenceToSingleText | fluentogram/stub_generator/parser.py:41-52 | a reference to a message not yet resolved resolves it first, then appends its text to the referring message |
| StubParser.ResolveSingleReference | fluentogram/stub_generator/parser.py:41-54 | `a = { b }` with `b = v` not yet resolved gives both `a` and `b` the text `v` |
| StubParser.ResolvedTargetDoubled | fluentogram/stub_generator/parser.py:143-148 | the skip guard needs placeholders as well as text, so a resolved message without placeholders is resolved again and its text becomes `v + v` |
| StubParser.Parser.constructor | fluentogram/stub_generator/parser.py:20-22 | a new parser has no messages and no terms |
| StubParser.Parser.ProcessTerm | fluentogram/stub_generator/parser.py:24-31 | the term table becomes `AfterTerm` of the old one; nothing else changes |
| StubParser.Parser.ProcessMessage | fluentogram/stub_generator/parser.py:120-135 | the id maps to a new message record; a new id goes last in the key order, a repeated one keeps its place |
| StubParser.Parser.ParseVariableReference | fluentogram/stub_generator/parser.py:33-36 | the messages become `AfterVariableReference` of the old ones |
| StubParser.Parser.ParseTermReference | fluentogram/stub_generator/parser.py:38-39 | the messages and the error match `AfterTermReference` |
| StubParser.Parser.ParseMessageReference | fluentogram/stub_generator/parser.py:41-54 | the messages and the error match `AfterMessageReference`, including its placeholder merge loop |
| StubParser.Parser.ParseFunctionReference | fluentogram/stub_generator/parser.py:73-99 | the messages become `AfterFunctionReference` of the old ones |
| StubParser.Parser.ParseSelectExpression | fluentogram/stub_generator/parser.py:101-118 | the messages and the error match `AfterSelect` |
| StubParser.Parser.ParsePlaceable | fluentogram/stub_generator/parser.py:56-71 | the messages and the error match `AfterPlaceable` |
| StubParser.Parser.ParseElements | fluentogram/stub_generator/parser.py:146-152 | the messages and the error match `AfterElements` |
| StubParser.Parser.Resolve | fluentogram/stub_generator/parser.py:146-154 | the messages and the error match `AfterResolve` |
| StubParser.Parser.ProcessMessageElements | fluentogram/stub_generator/parser.py:140-154 | the messages and the error match `AfterProcessElements` |
| StubParser.Parser.GetProcessedMessages | fluentogram/stub_generator/parser.py:170-173 | a name is returned iff its message has text or placeholders, without repetition |
| StubParser.Parser.FirstPass | fluentogram/stub_generator/parser.py:158-162 | the key order, messages and terms become `AfterFirstPass` of the old ones |
| StubParser.Parser.SecondPass | fluentogram/stub_generator/parser.py:164-166 | the messages and the error match `AfterSecondPass` over the key order |
| StubParser.Parser.Parse | fluentogram/stub_generator/parser.py:156-168 | the result is `ParseResult` of the parser's old state |
| StubParser.MergePlaceholders | fluentogram/stub_generator/parser.py:50-52 | the loop appends each name not yet present, in order (`Merge`) |
| StubParser.GetMessages | fluentogram/stub_generator/parser.py:176-178 | a new parser's `parse`, every returned message having sorted, duplicate-free placeholders |
| StubParser.VarText | fluentogram/stub_generator/parser.py:36 | defines the text a variable reference appends: "{ $name }" |
| StubParser.AfterTerm | fluentogram/stub_generator/parser.py:24-31 | defines `process_term`: the loop over the term's elements, every text element overwriting the term's stored text and a placeable only logged |
| StubParser.LastText | fluentogram/stub_generator/parser.py:25-27 | a reference definition: the value of the pattern's last text element, if it has one |
| StubParser.AfterFirstPass | fluentogram/stub_generator/parser.py:158-162 | defines the first pass of `parse`: each term through `process_term`, each message through `process_message`, every other entry skipped |
| StubParser.VarTexts | fluentogram/stub_generator/parser.py:75-77 | a reference definition: "{ $x }" for each of a run of names, in order |
| StubParser.WithReferenced | fluentogram/stub_generator/parser.py:48-52 | defines the last step of `_parse_message_reference`: the referenced text appended to the current message, the referenced placeholders merged into its own; the set of messages stays and no placeholder list gains a duplicate |
| StubParser.ParseResult | fluentogram/stub_generator/parser.py:156-168 | defines `parse` on a parser in a given state: the first pass, the second pass over the key order, then `_get_processed_messages` |
| StubParser.Parser.TakeReferenced | fluentogram/stub_generator/parser.py:48-52 | the `+=` of the referenced text and the loop that merges the placeholders change the messages as `WithReferenced` says, and nothing else |
| StubParser.UnresolvedReference | fluentogram/stub_generator/parser.py:44-52 | a reference to a message without a text resolves that message first, then appends its text and merges its placeholders into the referring message |
| StubParser.UnresolvedReferenceKeepsSorted | fluentogram/stub_generator/parser.py:45-52 | resolving a referenced message that has no text yet leaves messages outside the open set sorted |
| StubParser.WithReferencedKeepsSorted | fluentogram/stub_generator/parser.py:48-52 | taking in a referenced message changes only the current message, so messages outside the open set stay sorted |
| StubTree.AddChildClosed | fluentogram/stub_generator/tree.py:37-38 | hanging a new childless node under `at` keeps every listed child present |
| StubTree.AddChildLinked | fluentogram/stub_generator/tree.py:37-38 | hanging a missing child keeps every node below its parent and listed there |
| StubTree.AddChildNamed | fluentogram/stub_generator/tree.py:38 | the new node is named by its segment (`TreeNode(name=part)`), and every other node keeps being named by its last segment |
| StubTree.AddChildDistinct | fluentogram/stub_generator/tree.py:37-38 | a child is added only when missing, so no node lists a segment twice |
| StubTree.AddChildWalkable | fluentogram/stub_generator/tree.py:37-38 | adding a missing child keeps the root, closure and parent links |
| StubTree.AddChildKeepsTree | fluentogram/stub_generator/tree.py:37-38 | adding a missing child keeps the arena a tree |
| StubTree.AddChildGrows | fluentogram/stub_generator/tree.py:37-38 | adding a child changes no existing node except by appending a child segment after the existing ones |
| StubTree.StepWalkable | fluentogram/stub_generator/tree.py:36-39 | one walk step keeps the arena walkable and arrives at an existing node |
| StubTree.StepKeepsTree | fluentogram/stub_generator/tree.py:36-39 | one walk step keeps the arena a tree and arrives at an existing node |
| StubTree.StepGrows | fluentogram/stub_generator/tree.py:36-39 | one walk step changes existing nodes only by appending children |
| StubTree.StepCreates | fluentogram/stub_generator/tree.py:37-38 | the only node a step can create is the child it walks to, with no value and no placeholders |
| StubTree.WalkWalkable | fluentogram/stub_generator/tree.py:35-39 | the walk over all segments but the last keeps the arena walkable |
| StubTree.WalkKeepsTree | fluentogram/stub_generator/tree.py:35-39 | that walk keeps the arena a tree |
| StubTree.WalkGrowsAll | fluentogram/stub_generator/tree.py:35-39 | that walk changes existing nodes only by appending children |
| StubTree.WalkReachesAll | fluentogram/stub_generator/tree.py:35-39 | after the walk every prefix of the walked path exists |
| StubTree.WalkCreatesPrefixes | fluentogram/stub_generator/tree.py:37-38 | every node the walk creates lies on the walked path and has no value and no placeholders |
| StubTree.WalkLeavesDeeper | fluentogram/stub_generator/tree.py:35-39 | the walk leaves every node deeper than its path unchanged |
| StubTree.SetValueKeepsTree | fluentogram/stub_generator/tree.py:52-55 | updating an existing node's value and placeholders keeps the arena a tree |
| StubTree.FinalStepKeepsTree | fluentogram/stub_generator/tree.py:42-55 | the final step (create the final node, or update the existing one) keeps the arena a tree; the final node then holds the message's text and placeholders |
| StubTree.FinalStepGrows | fluentogram/stub_generator/tree.py:42-55 | the final step changes no node other than the final one except by appending children, and an existing final node keeps its children |
| StubTree.FinalReady | fluentogram/stub_generator/tree.py:35-45 | the walk ends at an existing parent, and a final segment already listed there has its node |
| StubTree.BuildNodeKeepsTree | fluentogram/stub_generator/tree.py:28-57 | after `_build_node` the arena is still a tree and the key's node holds the message's text and placeholders |
| StubTree.BuildNodeKeepsOthers | fluentogram/stub_generator/tree.py:28-57 | every node other than the key's keeps its name, value and placeholders, and gains children only after the ones it had |
| StubTree.BuildNodeCreatesPrefixes | fluentogram/stub_generator/tree.py:35-50 | every prefix of the key's path exists afterwards; every created node other than the final one is a proper prefix of the path and has no value |
| StubTree.BuildNodeKeepsChildren | fluentogram/stub_generator/tree.py:51-55 | a key whose node already exists (an intermediate node of an earlier key) gets the value and keeps its children |
| StubTree.Tree.constructor | fluentogram/stub_generator/tree.py:61 | the tree starts as the root node alone, named "root", without a value |
| StubTree.Tree.Descend | fluentogram/stub_generator/tree.py:35-39 | the loop walks the segments and leaves the arena equal to `Walk` of the old one |
| StubTree.Tree.BuildNode | fluentogram/stub_generator/tree.py:28-57 | an empty separator fails (the ValueError of `str.split`) and changes nothing; otherwise it returns the parent path, the arena becomes `AfterBuildNode` of the old one, the key's node holds the message, and every other node keeps its contents |
| StubTree.Tree.Insert | fluentogram/stub_generator/tree.py:32-57 | `_build_node` once the key is split: the arena becomes `AfterBuildNode` and the key's node holds the message |
| StubTree.Tree.Finish | fluentogram/stub_generator/tree.py:42-55 | the final step creates or updates the final node and changes nothing else |
| StubTree.BuildNodeFacts | fluentogram/stub_generator/tree.py:28-57 | after `_build_node` the root keeps its name and value, the arena stays a tree, and the key's node holds the message |
| StubTree.HoldsKept | fluentogram/stub_generator/tree.py:28-57 | a later key whose path differs leaves an earlier key's node holding its message |
| StubTree.InsertKeepsHolds | fluentogram/stub_generator/tree.py:62-63 | inserting the `i`-th key keeps every earlier key's message in its node |
| StubTree.BuildTree | fluentogram/stub_generator/tree.py:60-64 | fails iff the separator is empty and there is a message; otherwise the node at each key's path holds that key's message |
| StubTree.IsLeaf | fluentogram/stub_generator/tree.py:17-20 | defines `is_leaf`: the node has no children |
| StubTree.HasValue | fluentogram/stub_generator/tree.py:22-25 | defines `has_value`: the value is not None |
| StubTree.AddChild | fluentogram/stub_generator/tree.py:38 | defines `current_node.children[part] = node` on the arena: the node stored at the child path, its segment appended to the parent's children |
| StubTree.Step | fluentogram/stub_generator/tree.py:36-39 | defines one iteration of the walk: the child is created without a value when it is missing |
| StubTree.Walk | fluentogram/stub_generator/tree.py:35-39 | defines the loop over `parts[:-1]`: one step per segment, each from the node the previous one reached |
| StubTree.SetValue | fluentogram/stub_generator/tree.py:53-55 | defines the update of an existing node: its value and placeholders replaced, its name and children kept |
| StubTree.FinalStep | fluentogram/stub_generator/tree.py:42-55 | defines the last part of `_build_node`: a missing final node is created with the message's text and placeholders, an existing one is updated |
| StubTree.AfterBuildNode | fluentogram/stub_generator/tree.py:28-57 | defines `_build_node` on the arena once the key is split: the walk over all segments but the last, then the final step |
| StubClasses.NewClassRef | fluentogram/stub_generator/renderable.py:63-67 | the reference keeps the variable name; a missing or empty full name falls back to the variable name, any other full name is kept |
| StubClasses.Class.constructor | fluentogram/stub_generator/renderable.py:73-77 | a new class has its name and no references and no methods |
| StubClasses.Class.AddClassRef | fluentogram/stub_generator/renderable.py:89-90 | appends the reference after the earlier ones; name and methods unchanged |
| StubClasses.Class.AddMethod | fluentogram/stub_generator/renderable.py:92-93 | appends the method after the earlier ones; name and references unchanged |
| StubClasses.Runner.constructor | fluentogram/stub_generator/renderable.py:101-103 | a runner starts with the given knots, no references, no methods, and the name "TranslatorRunner" unless another is given |
| StubClasses.Runner.AddClassRef | fluentogram/stub_generator/renderable.py:89-90 | appends a reference to the runner's own class part; knots unchanged |
| StubClasses.Runner.AddMethod | fluentogram/stub_generator/renderable.py:92-93 | appends a method to the runner's own class part; knots unchanged |
| StubClasses.Runner.AddKnot | fluentogram/stub_generator/renderable.py:111-112 | appends the class as it stands after the knots held; the runner's own part unchanged |
| StubClasses.RenderLayout | fluentogram/stub_generator/renderable.py:81-86 | the two loops of `Class.render` produce every reference's line, a blank line only when there are references, then every method's line, in order |
| StubClasses.LayoutAddMethod | fluentogram/stub_generator/renderable.py:85-86 | one more method adds exactly its line at the end of the layout |
| StubClasses.LayoutAddClassRef | fluentogram/stub_generator/renderable.py:81-84 | one more reference goes after the earlier references and before the blank line and the methods |
| StubClasses.Layout | fluentogram/stub_generator/renderable.py:81-86 | defines what both `Class.render` variants write after the header, for given line renderers: every reference line, "\n" only when there are references, then every method line |
| StubRenderable.FormatArgs | fluentogram/stub_generator/renderable.py:48 | the formatted argument list is empty exactly when there are no arguments |
| StubRenderable.FormatArgsRoundTrip | fluentogram/stub_generator/renderable.py:48 | a non-empty list renders as "*, " followed by the names, which splitting at ", " gives back |
| StubRenderable.NewMethod | fluentogram/stub_generator/renderable.py:42-50 | the method keeps its name and translation, and its arguments are empty exactly when none were given |
| StubRenderable.NewInternalMethod | fluentogram/stub_generator/renderable.py:53-55 | an internal method is named `__call__` and otherwise built like `Method` |
| StubRenderable.RenderBody | fluentogram/stub_generator/renderable.py:79-87 | the render loops give the header followed by the layout of the class |
| StubRenderable.RenderKnot | fluentogram/stub_generator/renderable.py:79-87 | rendering a class in a given state gives its class text |
| StubRenderable.RenderClass | fluentogram/stub_generator/renderable.py:79-87 | `Class.render` gives the class text of the class's current contents |
| StubRenderable.RenderRunner | fluentogram/stub_generator/renderable.py:105-109 | `Runner.render` gives the runner's own part followed by every knot's text in list order |
| StubRenderable.ClassEndsWithNewline | fluentogram/stub_generator/renderable.py:79-87 | every class rendering ends with "\n" |
| StubRenderable.RunnerEndsWithNewline | fluentogram/stub_generator/renderable.py:105-109 | the whole runner rendering ends with "\n" |
| StubRenderable.AddMethodAppends | fluentogram/stub_generator/renderable.py:85-86 | adding a method leaves the earlier rendering in front and appends the method's text and a blank line |
| StubRenderable.AddClassRefInserts | fluentogram/stub_generator/renderable.py:81-84 | adding a reference inserts its line after the earlier references and before the blank line and the methods |
| StubRenderable.AddKnotAppends | fluentogram/stub_generator/renderable.py:107-108 | a knot added later renders after everything rendered before |
| StubRenderable.EmptyClass | fluentogram/stub_generator/renderable.py:71-80 | an empty class renders as its header line alone, with the name title-cased and escaped; the template's final newline is dropped and `render` adds one |
| StubRenderable.TitleKeepsPlain | fluentogram/stub_generator/renderable.py:12-14 | title-casing never introduces a character that autoescape would change |
| StubRenderable.ClassRefDefault | fluentogram/stub_generator/renderable.py:60-67 | a reference without a full name renders the title-cased variable name as its type |
| StubRenderable.RunnerNameVerbatim | fluentogram/stub_generator/renderable.py:97-99 | the runner's header shows its name as given, not title-cased |
| StubRenderable.EscapeApostropheGreater | fluentogram/stub_generator/renderable.py:10 | autoescape turns an apostrophe into "&#39;" and a greater-than sign into "&gt;" and keeps plain text |
| StubRenderable.EscapedTranslation | fluentogram/stub_generator/renderable.py:38-40 | a method's rendered translation carries the escaped apostrophe and greater-than sign |
| StubRenderable.MethodPattern | fluentogram/stub_generator/renderable.py:38-40 | defines the `Method` template: "    @staticmethod\n    def ", the name, "(", the arguments, `) -> Literal["""`, the escaped translation, `"""]: ...` |
| StubRenderable.MethodText | fluentogram/stub_generator/renderable.py:29-30 | defines `Method.render()`: the filled template and the "\n" of `RenderAble.render` |
| StubRenderable.MethodLine | fluentogram/stub_generator/renderable.py:85-86 | defines what `Class.render` appends per method: its rendering and one more "\n" |
| StubRenderable.ClassRefText | fluentogram/stub_generator/renderable.py:58-67 | defines `ClassRef.render()`: "    var: " and the title-cased full name, then "\n" |
| StubRenderable.ClassHeader | fluentogram/stub_generator/renderable.py:71-80 | defines the header of `Class.render`: the template "\nclass Name:" (Jinja drops its trailing newline) and then "\n" |
| StubRenderable.BodyText | fluentogram/stub_generator/renderable.py:80-87 | defines `Class.render` after a given header: the references, "\n" only when there are references, then the method lines |
| StubRenderable.ClassText | fluentogram/stub_generator/renderable.py:79-87 | defines `Class.render` of a class's contents |
| StubRenderable.RunnerHeader | fluentogram/stub_generator/renderable.py:97-99 | defines the runner template with the runner's name, which is not title-cased, plus the "\n" of `Class.render` |
| StubRenderable.RunnerText | fluentogram/stub_generator/renderable.py:105-109 | defines `Runner.render`: its own part rendered as a class, then every knot's rendering |
| StubTemplates.CapitalizeKeeps | fluentogram/stub_generator/templates.py:14 | capitalizing a word never introduces an uncased character it did not contain |
| StubTemplates.LinesCapitalizeKeeps | fluentogram/stub_generator/templates.py:14 | joining capitalized words introduces no uncased character that none of them contained |
| StubTemplates.CamelCaseDropsSeparators | fluentogram/stub_generator/templates.py:12-14 | the `camelcase` filter leaves no "-" and no "_" |
| StubTemplates.WordsTwo | fluentogram/stub_generator/templates.py:14 | two separator-free words joined by "_" split back into the two words |
| StubTemplates.CapitalizeTwo | fluentogram/stub_generator/templates.py:14 | two words are capitalized one by one and joined with nothing between |
| StubTemplates.CamelCaseTwoWords | fluentogram/stub_generator/templates.py:12-14 | "p_q" becomes Capitalize(p) + Capitalize(q) |
| StubTemplates.ExampleWords | fluentogram/stub_generator/templates.py:14 | example: "first_unknown" is the two separator-free words "first" and "unknown" joined by "_" |
| StubTemplates.CapitalizeFirst | fluentogram/stub_generator/templates.py:14 | example: "first" capitalizes to "First" |
| StubTemplates.CapitalizeUnknown | fluentogram/stub_generator/templates.py:14 | example: "unknown" capitalizes to "Unknown" |
| StubTemplates.CamelCaseExample | fluentogram/stub_generator/templates.py:12-14 | example: "first_unknown" becomes "FirstUnknown" |
| StubTemplates.Typed | fluentogram/stub_generator/templates.py:48 | every argument is annotated with ": PossibleValue", in order |
| StubTemplates.FormatArgs | fluentogram/stub_generator/templates.py:48 | the formatted argument list is empty exactly when there are no arguments |
| StubTemplates.FormatArgsRoundTrip | fluentogram/stub_generator/templates.py:48 | a non-empty list renders as "*, " followed by the typed arguments, which splitting at ", " gives back |
| StubTemplates.NewMethod | fluentogram/stub_generator/templates.py:42-50 | the method keeps its name and result text, and its arguments are empty exactly when none were given |
| StubTemplates.NewInternalMethod | fluentogram/stub_generator/templates.py:56-58 | an internal method is named `__call__` and otherwise built like `Method` |
| StubTemplates.RenderBody | fluentogram/stub_generator/templates.py:85-93 | the render loops give header and layout, right-stripped, with one "\n" appended |
| StubTemplates.RenderKnot | fluentogram/stub_generator/templates.py:85-93 | rendering a class in a given state gives its class text |
| StubTemplates.RenderClass | fluentogram/stub_generator/templates.py:85-93 | `Class.render` gives the class text of the class's current contents |
| StubTemplates.RenderRunner | fluentogram/stub_generator/templates.py:120-124 | `Runner.render` gives its own trimmed class part followed by every knot's text in list order |
| StubTemplates.TrimmedShape | fluentogram/stub_generator/templates.py:93 | `rstrip` keeps everything up to the last non-whitespace character and then one "\n" follows |
| StubTemplates.ClassHeaderStart | fluentogram/stub_generator/templates.py:77 | a class header's second character is the "c" of "class" |
| StubTemplates.TrimmedAfterHeader | fluentogram/stub_generator/templates.py:93 | a trimmed text that keeps its header ends with exactly one "\n" and no whitespace before it |
| StubTemplates.ClassEndsWithOneNewline | fluentogram/stub_generator/templates.py:85-93 | every class rendering ends with a single "\n" and no other whitespace before it |
| StubTemplates.TrimmedKeepsPrefix | fluentogram/stub_generator/templates.py:93 | `rstrip` never cuts into text that is followed by a non-whitespace character |
| StubTemplates.HeaderPrefix | fluentogram/stub_generator/templates.py:85-93 | a class part whose template opens with literal text keeps that text in front after trimming |
| StubTemplates.RunnerStartsWithPrelude | fluentogram/stub_generator/templates.py:103-124 | the runner rendering starts with the imports and the `PossibleValue` alias |
| StubTemplates.AddMethodAppends | fluentogram/stub_generator/templates.py:91-93 | adding a method keeps the untrimmed earlier text in front, then the method's text and one "\n"; nothing is stripped after the method's "..." |
| StubTemplates.TrimmedAfterDot | fluentogram/stub_generator/templates.py:93 | trimming text whose last line ends with "." leaves it unchanged |
| StubTemplates.MethodEndsWithDot | fluentogram/stub_generator/templates.py:38-40 | a method's template text ends with the "." of "..." |
| StubTemplates.AddKnotAppends | fluentogram/stub_generator/templates.py:122-123 | a knot added later renders after everything rendered before |
| StubTemplates.TypedTwoArgs | fluentogram/stub_generator/templates.py:48 | two arguments render as "*, a: PossibleValue, b: PossibleValue" |
| StubTemplates.Words | fluentogram/stub_generator/templates.py:14 | defines `value.replace("_", "-").split("-")` |
| StubTemplates.CamelCase | fluentogram/stub_generator/templates.py:12-14 | defines the `camelcase` filter: every word capitalized, joined with "" |
| StubTemplates.MethodPattern | fluentogram/stub_generator/templates.py:38-40 | defines the `Method` template: "    @staticmethod\n    def ", the name, "(", the arguments, `) -> Literal["""`, the escaped result text, `"""]: ...` |
| StubTemplates.MethodText | fluentogram/stub_generator/templates.py:52-53 | defines `Method.render`: the filled template and one "\n" |
| StubTemplates.ClassRefText | fluentogram/stub_generator/templates.py:61-73 | defines `ClassRef.render`: "    var: " and the camel-cased full name, then one "\n" |
| StubTemplates.ClassHeader | fluentogram/stub_generator/templates.py:77-86 | defines the first line `Class.render` builds: "\nclass " and the camel-cased name, ":" and "\n" |
| StubTemplates.BodyText | fluentogram/stub_generator/templates.py:86-92 | defines `text` in `Class.render` before trimming: the header, the references, "\n" only when there are references, then the methods |
| StubTemplates.Trimmed | fluentogram/stub_generator/templates.py:93 | defines `text.rstrip() + "\n"` |
| StubTemplates.ClassText | fluentogram/stub_generator/templates.py:85-93 | defines `Class.render` of a class's contents |
| StubTemplates.RunnerHeader | fluentogram/stub_generator/templates.py:103-113 | defines the runner template with the runner's name, which is not camel-cased, plus the "\n" of `Class.render` |
| StubTemplates.RunnerText | fluentogram/stub_generator/templates.py:120-124 | defines `Runner.render`: its own part rendered and trimmed as a class, then every knot's rendering |
| StubStubs.PresentChildren | fluentogram/stub_generator/stubs.py:22 | every listed child of a node is a node of the tree |
| StubStubs.PresentTail | fluentogram/stub_generator/stubs.py:22-47 | after the first child is taken, the remaining children are still present |
| StubStubs.Below | fluentogram/stub_generator/stubs.py:33-36 | every path `_process_node` recurses into is a node of the tree |
| StubStubs.ClassesOfConcat | fluentogram/stub_generator/stubs.py:36 | the classes handed to `add_knot` for two runs of paths are those of the first run, then those of the second |
| StubStubs.ChildrenLeafStep | fluentogram/stub_generator/stubs.py:23-32 | at a leaf child the loop adds that child's method only when it has a value, and leaves the knots alone |
| StubStubs.ChildrenInnerStep | fluentogram/stub_generator/stubs.py:33-37 | at an inner child the loop processes it, appends its class to the knots after the ones its subtree added, then adds a reference named by the child with the child class's name |
| StubStubs.ChildrenKeepName | fluentogram/stub_generator/stubs.py:22-37 | processing the children never changes the class's name |
| StubStubs.NodeName | fluentogram/stub_generator/stubs.py:13 | the class of a node is named by the node's name |
| StubStubs.LeafMethodsLeaf | fluentogram/stub_generator/stubs.py:23-32 | a leaf child contributes its method (when it has a value) and no reference |
| StubStubs.KnotAfterLeaf | fluentogram/stub_generator/stubs.py:23-32 | the class built over the children takes a leaf child's method and goes on with the rest |
| StubStubs.KnotAfterInner | fluentogram/stub_generator/stubs.py:33-37 | the class built over the children takes an inner child's reference and goes on with the rest |
| StubStubs.ChildrenKnot | fluentogram/stub_generator/stubs.py:22-37 | the loop over the children builds exactly the class whose references are the inner children and whose methods are the valued leaf children, in order |
| StubStubs.NodeKnot | fluentogram/stub_generator/stubs.py:11-39 | `_process_node` returns the node's expected class: its `__call__` first when it has a value, then leaf methods and inner references in child order |
| StubStubs.ChildrenKnots | fluentogram/stub_generator/stubs.py:22-37 | the knots after the loop are the earlier ones followed by the classes of every inner node below, each after its own subtree's |
| StubStubs.ProcessNodeShape | fluentogram/stub_generator/stubs.py:11-39 | `_process_node` gives the node's expected class and appends the classes of all inner nodes below it in post-order |
| StubStubs.RootChildrenAsNode | fluentogram/stub_generator/stubs.py:47-62 | the loop over the root's children builds the runner as `_process_node` would build a class at the root |
| StubStubs.RootOutputShape | fluentogram/stub_generator/stubs.py:42-62 | the runner is named "TranslatorRunner", refers to every inner top-level node, has a method per valued top-level leaf, and holds the classes of every inner node in post-order |
| StubStubs.StubsTextShape | fluentogram/stub_generator/stubs.py:42-65 | the stub text is the Literal import line followed by the runner's rendering of that runner and those knots |
| StubStubs.HybridCallFirst | fluentogram/stub_generator/stubs.py:15-19 | a node with a value gets its `__call__` method before every other method |
| StubStubs.NoValueNoCall | fluentogram/stub_generator/stubs.py:15-32 | a node without a value has only its leaf children's methods |
| StubStubs.ClassNameIsLastSegment | fluentogram/stub_generator/stubs.py:13 | the class of the node at a path is named by the path's last segment |
| StubStubs.SameLastSegmentSameName | fluentogram/stub_generator/stubs.py:13 | two nodes whose paths end in the same segment produce classes of the same name |
| StubStubs.BelowNonLeaf | fluentogram/stub_generator/stubs.py:33-36 | every node `_process_node` recurses into is an inner node below the path, reached through one of the listed children |
| StubStubs.ProcessNodeInto | fluentogram/stub_generator/stubs.py:11-39 | the recursive method returns a fresh class and leaves the runner's knots as `ProcessNode` says; the runner's own part unchanged |
| StubStubs.ProcessChildInto | fluentogram/stub_generator/stubs.py:23-37 | one loop iteration over a child changes class and knots as one step of `ProcessChildren` |
| StubStubs.RootChildInto | fluentogram/stub_generator/stubs.py:48-62 | one loop iteration over a top-level node changes the runner as one step of `RootChildren` |
| StubStubs.GenerateStubs | fluentogram/stub_generator/stubs.py:42-65 | `generate_stubs` returns the stub text of the tree |
| StubStubs.NodeStart | fluentogram/stub_generator/stubs.py:13-19 | defines the class `_process_node` starts from: `Class(node.name)`, with `InternalMethod(node.value, node.placeholders)` when the node has a value |
| StubStubs.ProcessNode | fluentogram/stub_generator/stubs.py:11-39 | defines `_process_node(node, runner)`: the class it returns and the knots the runner holds afterwards |
| StubStubs.ProcessChildren | fluentogram/stub_generator/stubs.py:22-37 | defines the loop over `node.children`: a leaf child adds its method when it has a value; an inner child is processed, becomes a knot and gets a class reference |
| StubStubs.RootChildren | fluentogram/stub_generator/stubs.py:47-62 | defines the loop of `generate_stubs` over the root's children: a valued leaf adds a runner method; an inner node is processed, referenced and added as a knot |
| StubStubs.RootOutput | fluentogram/stub_generator/stubs.py:44-62 | defines the runner's state after that loop, starting from `Runner(knots=[])` |
| StubStubs.StubsText | fluentogram/stub_generator/stubs.py:42-65 | defines `generate_stubs`: "from typing import Literal\n" followed by `runner.render()` |
| StubStubs.SubRefs | fluentogram/stub_generator/stubs.py:33-37 | a reference definition, independent of the loop: one class reference per child that has children, in order |
| StubStubs.LeafMethods | fluentogram/stub_generator/stubs.py:23-32 | a reference definition: one method per leaf child with a value, in order |
| StubStubs.LeafAdded | fluentogram/stub_generator/stubs.py:25-32 | a reference definition: what one leaf child contributes, a method when it has a value and nothing otherwise |
| StubStubs.ExpectedClass | fluentogram/stub_generator/stubs.py:11-39 | a reference definition of the class of a node: its name, its `SubRefs`, and `__call__` (when it has a value) before its `LeafMethods` |
| StubStubs.KnotAfter | fluentogram/stub_generator/stubs.py:22-37 | a reference definition of the class after the loop over a run of children: `SubRefs` and `LeafMethods` of that run appended |
| StubStubs.ClassesOf | fluentogram/stub_generator/stubs.py:35-36 | a reference definition: the expected class of each of a run of nodes, in order |
| StubGenerator.LastPart | fluentogram/stub_generator/generator.py:16-17 | the file name `Path` looks at is empty or one of the path's components |
| StubGenerator.RFind | fluentogram/stub_generator/generator.py:17 | the position of the last dot, or -1 exactly when there is none |
| StubGenerator.Validate | fluentogram/stub_generator/generator.py:16-21 | a suffix other than ".pyi" is refused first; then no file and no directory is refused; every other call is accepted |
| StubGenerator.Files | fluentogram/stub_generator/generator.py:23-27 | the file set holds the given file and the directory's `*.ftl` files (each only when given non-empty) and nothing else |
| StubGenerator.PyiSuffix | fluentogram/stub_generator/generator.py:17 | "name.pyi" has the suffix ".pyi" |
| StubGenerator.BarePyiRefused | fluentogram/stub_generator/generator.py:17-18 | an output file named just ".pyi" has no suffix under `pathlib` and is refused |
| StubGenerator.ClassNameIsTitledBase | fluentogram/stub_generator/generator.py:31-36 | the class name is the title-cased first dash segment, with or without a dash |
| StubGenerator.CompoundNames | fluentogram/stub_generator/generator.py:33-35 | a dashed key names its class after the first segment and its method after the second (generator.py:107) |
| StubGenerator.SecondSegmentCollides | fluentogram/stub_generator/generator.py:107 | "p-q-r1" and "p-q-r2" both become method `q`: segments after the second are dropped |
| StubGenerator.Typed | fluentogram/stub_generator/generator.py:43 | each parameter is annotated with ": str", in order |
| StubGenerator.SortedParams | fluentogram/stub_generator/generator.py:43 | the parameters are sorted, without duplicates, and are exactly the given ones |
| StubGenerator.SignatureOfSet | fluentogram/stub_generator/generator.py:38-44 | the signature depends only on the set of parameters, not on their order or repetition |
| StubGenerator.SignatureWithoutParams | fluentogram/stub_generator/generator.py:40-41 | the `(self)` signature appears exactly when there are no parameters |
| StubGenerator.TypedNoComma | fluentogram/stub_generator/generator.py:43 | annotating parameters adds no comma |
| StubGenerator.SignatureParamsReadBack | fluentogram/stub_generator/generator.py:43-44 | the parameter list splits back at ", " into the sorted annotated parameters |
| StubGenerator.SimpleKeys | fluentogram/stub_generator/generator.py:55-56 | the simple keys are exactly the keys without a dash |
| StubGenerator.GroupKeys | fluentogram/stub_generator/generator.py:50-54 | a group's keys are exactly the dashed keys with that first segment |
| StubGenerator.FirstBases | fluentogram/stub_generator/generator.py:50-53 | the group names are distinct and are exactly the first segments of dashed keys |
| StubGenerator.SimpleShape | fluentogram/stub_generator/generator.py:48-56 | the simple messages keep the key order of the dashless keys and their parameters |
| StubGenerator.GroupedShape | fluentogram/stub_generator/generator.py:47-54 | the groups are ordered by the first appearance of their first segment |
| StubGenerator.GroupGrows | fluentogram/stub_generator/generator.py:54 | adding a key to a group appends it with its parameters |
| StubGenerator.NoKeysNoGroup | fluentogram/stub_generator/generator.py:50-54 | a first segment no dashed key has gets no group keys |
| StubGenerator.CompoundStep | fluentogram/stub_generator/generator.py:50-54 | a dashed key goes last in the group of its first segment, which is created when new |
| StubGenerator.GroupUntouched | fluentogram/stub_generator/generator.py:50-54 | a dashed key leaves all other groups as they were |
| StubGenerator.SimpleStepKeepsGroups | fluentogram/stub_generator/generator.py:55-56 | a dashless key changes no group |
| StubGenerator.GroupedInner | fluentogram/stub_generator/generator.py:47-58 | every group holds exactly its dashed keys, in message order, with their parameters |
| StubGenerator.GroupPartition | fluentogram/stub_generator/generator.py:46-58 | every key is simple (no dash) or in the group of its first segment, and nowhere else |
| StubGenerator.SimpleStep | fluentogram/stub_generator/generator.py:49-56 | one loop step adds a dashless key to the simple messages and leaves them alone otherwise |
| StubGenerator.GroupedStep | fluentogram/stub_generator/generator.py:49-56 | one loop step puts a dashed key into its group, creating the group when absent |
| StubGenerator.GroupMessages | fluentogram/stub_generator/generator.py:46-58 | `_group_messages` returns the grouped and the simple messages |
| StubGenerator.FirstConflict | fluentogram/stub_generator/generator.py:65-75 | there is no conflict exactly when no group name is a simple key; a reported conflict names that key and the keys of its group |
| StubGenerator.CheckForConflict | fluentogram/stub_generator/generator.py:60-75 | the loop reports the first group, in group order, whose name is also a simple key |
| StubGenerator.ConflictExactly | fluentogram/stub_generator/generator.py:60-75 | a conflict is raised exactly when some dashless key is the first segment of some dashed key |
| StubGenerator.GroupedIsOk | fluentogram/stub_generator/generator.py:46-58 | grouping gives well-formed dictionaries whose groups hold only dashed keys |
| StubGenerator.GenerateTextIs | fluentogram/stub_generator/generator.py:82-112 | when no conflict is raised the written text is the content lines joined with "\n" |
| StubGenerator.TextStartsWithRunner | fluentogram/stub_generator/generator.py:90-112 | the written text starts with the `TranslatorRunner` class and its `get` |
| StubGenerator.SimpleLinesStep | fluentogram/stub_generator/generator.py:93-94 | each simple message adds its signature |
| StubGenerator.AttributeLinesStep | fluentogram/stub_generator/generator.py:97-99 | each group adds an attribute line typed by its class name |
| StubGenerator.GroupLinesStep | fluentogram/stub_generator/generator.py:106-109 | each grouped message adds the signature of its second segment and an empty line |
| StubGenerator.ClassBlocksStep | fluentogram/stub_generator/generator.py:102-109 | each group adds its class block after the earlier ones |
| StubGenerator.AppendSimple | fluentogram/stub_generator/generator.py:93-94 | the loop appends the simple messages' lines |
| StubGenerator.AppendAttributes | fluentogram/stub_generator/generator.py:97-99 | the loop appends the attribute lines |
| StubGenerator.AppendGroup | fluentogram/stub_generator/generator.py:106-109 | the inner loop appends one group's lines |
| StubGenerator.AppendClasses | fluentogram/stub_generator/generator.py:102-109 | the outer loop appends every group's class block |
| StubGenerator.AssembleContent | fluentogram/stub_generator/generator.py:83-109 | the content list is the runner line, the simple methods, the attributes and the class blocks |
| StubGenerator.Generator.constructor | fluentogram/stub_generator/generator.py:16-29 | a validated generator holds the output file, the file set and no messages |
| StubGenerator.Generator.Generate | fluentogram/stub_generator/generator.py:77-112 | the corrected `generate` (each message contributes its placeholder names): the messages become every file's messages merged in visiting order; the result is the conflict or the generated text |
| StubGenerator.IntendedParams | fluentogram/stub_generator/generator.py:79-80 | defines the parameter names a held value stands for: the names themselves, or a `Message` record's placeholders |
| StubGenerator.Intended | fluentogram/stub_generator/generator.py:79-80 | the same keys, each value replaced by the names it stands for; well-formed messages stay well formed |
| StubGenerator.AsRecords | fluentogram/stub_generator/generator.py:79-80 | `self.messages` as lines 79-80 leave it: the same keys, each holding its `Message` record |
| StubGenerator.AsNames | fluentogram/stub_generator/generator.py:79-80 | the same keys, each holding its parameter names; reading those names back gives the original messages |
| StubGenerator.SignatureAsWritten | fluentogram/stub_generator/generator.py:38-44 | fails exactly when handed a `Message` record, the failure being TypeError from `sorted`; on a set of names it is the corrected signature |
| StubGenerator.SimpleLinesAsWritten | fluentogram/stub_generator/generator.py:93-94 | defines the simple-message loop as written, stopped by the first signature that raises |
| StubGenerator.GroupLinesAsWritten | fluentogram/stub_generator/generator.py:106-109 | defines the inner grouped loop as written, stopped by the first signature that raises |
| StubGenerator.ClassBlocksAsWritten | fluentogram/stub_generator/generator.py:102-109 | defines the class-block loop as written, stopped by the first signature that raises |
| StubGenerator.GenerateAsWritten | fluentogram/stub_generator/generator.py:83-112 | defines `generate` as written once the files are read: grouping, the conflict check, then every held value passed to the signature code |
| StubGenerator.SimpleLinesOnNames | fluentogram/stub_generator/generator.py:93-94 | on sets of names the as-written simple loop succeeds with the corrected lines |
| StubGenerator.GroupLinesOnNames | fluentogram/stub_generator/generator.py:106-109 | on sets of names the as-written inner loop succeeds with the corrected lines |
| StubGenerator.ClassBlocksOnNames | fluentogram/stub_generator/generator.py:102-109 | on sets of names the as-written class-block loop succeeds with the corrected blocks |
| StubGenerator.AsWrittenOnNames | fluentogram/stub_generator/generator.py:83-112 | given sets of names, `generate` as written gives exactly the corrected text or conflict |
| StubGenerator.SimpleLinesFailOnRecords | fluentogram/stub_generator/generator.py:93-94 | a non-empty simple loop over `Message` records raises TypeError |
| StubGenerator.GroupLinesFailOnRecords | fluentogram/stub_generator/generator.py:106-109 | a non-empty inner loop over `Message` records raises TypeError |
| StubGenerator.ClassBlocksFailOnRecords | fluentogram/stub_generator/generator.py:102-109 | a non-empty class-block loop over non-empty groups of `Message` records raises TypeError |
| StubGenerator.AsWrittenOnRecords | fluentogram/stub_generator/generator.py:77-112 | `generate` as written on the records it stores: a conflicting catalog gives the conflict, an empty catalog only the runner class, and every other catalog raises TypeError |
| StubGenerator.AsWrittenConflict | fluentogram/stub_generator/generator.py:86-87 | with a conflicting key the as-written `generate` reports the same conflict as the corrected one, before any signature |
| StubGenerator.AsWrittenEmpty | fluentogram/stub_generator/generator.py:83-112 | an empty catalog gives only the runner class |
| StubGenerator.AsWrittenTypeError | fluentogram/stub_generator/generator.py:77-112 | a non-empty catalog without a conflict makes the as-written `generate` raise TypeError |
| StubGenerator.ImportFrom | fluentogram/stub_generator/generator.py:5 | `from module import name` fails with ImportError exactly when the module does not define the name |
| StubGenerator.ImportAsWritten | fluentogram/stub_generator/generator.py:5 | read against fluentogram/exceptions.py, line 5 fails because that module does not define StubGeneratorKeyConflictError; the four names the rest of the current code imports from it are defined, NotImplementedRootLocaleTranslator is not |
| StubGenerator.AfterFilesUnion | fluentogram/stub_generator/generator.py:78-80 | a later file's message replaces an earlier one with the same key, and no key is lost |
| StubGenerator.NewGenerator | fluentogram/stub_generator/generator.py:10-29 | construction fails exactly when validation refuses, with that error; otherwise a fresh generator over the file set with no messages |
| StubGenerator.Suffix | fluentogram/stub_generator/generator.py:16-17 | defines `Path(output_file).suffix`: the name from its last ".", or "" when the name has no dot or the dot is its first or last character |
| StubGenerator.Compound | fluentogram/stub_generator/generator.py:33 | defines the test `"-" in name` |
| StubGenerator.BaseName | fluentogram/stub_generator/generator.py:51 | defines `name.split("-")[0]`, the whole name when it has no dash |
| StubGenerator.ClassName | fluentogram/stub_generator/generator.py:31-36 | defines `_generate_class_name`: the title-cased first segment of a dashed name, the title-cased name otherwise |
| StubGenerator.MethodName | fluentogram/stub_generator/generator.py:107 | defines `name.split("-")[1]` for a dashed key |
| StubGenerator.ParamList | fluentogram/stub_generator/generator.py:43 | defines `param_list`: the sorted parameters, each with ": str", joined with ", " |
| StubGenerator.Signature | fluentogram/stub_generator/generator.py:38-44 | defines `_generate_method_signature`: `(self)` without parameters, `(self, param_list)` with them |
| StubGenerator.Simple | fluentogram/stub_generator/generator.py:48-56 | defines `simple_messages` after the loop of `_group_messages` has seen a run of keys: each dashless key with its parameters |
| StubGenerator.Grouped | fluentogram/stub_generator/generator.py:47-54 | defines `grouped_messages` after that loop: each dashed key filed with its parameters under its first segment, a group created on first sight |
| StubGenerator.SimpleLines | fluentogram/stub_generator/generator.py:93-94 | defines the lines this loop appends: one signature per simple message, in key order |
| StubGenerator.AttributeLines | fluentogram/stub_generator/generator.py:97-99 | defines the lines this loop appends: one "    base: Class\n" per group |
| StubGenerator.GroupLines | fluentogram/stub_generator/generator.py:106-109 | defines the lines the inner loop appends: each grouped key's second-segment signature followed by "" |
| StubGenerator.ClassBlock | fluentogram/stub_generator/generator.py:103-109 | defines one group's block: "class Name:" and then that group's lines |
| StubGenerator.ClassBlocks | fluentogram/stub_generator/generator.py:102-109 | defines the class blocks of every group, in group order |
| StubGenerator.ContentLines | fluentogram/stub_generator/generator.py:83-109 | defines the list `content`: the runner line, the simple lines, the attribute lines, then the class blocks |
| StubGenerator.GenerateText | fluentogram/stub_generator/generator.py:83-112 | defines the part of `generate` after the files are read: the conflict error, or `"\n".join(content)` |
| StubGenerator.AfterFiles | fluentogram/stub_generator/generator.py:78-80 | defines `self.messages` after `update` with each file's messages, in visiting order |
| LegacyParsedFtl.VariableNode | fluentogram/typing_generator/parsed_ftl.py:59-60 | a variable renders as "{ $id }" and contributes exactly its own name as argument |
| LegacyParsedFtl.NamedText | fluentogram/typing_generator/parsed_ftl.py:62-67 | a named argument renders as a non-empty "name: value" |
| LegacyParsedFtl.NamedTexts | fluentogram/typing_generator/parsed_ftl.py:70-72 | the loop over named arguments keeps one text per argument, in order |
| LegacyParsedFtl.Dollars | fluentogram/typing_generator/parsed_ftl.py:110 | each selector argument is prefixed with "$", in order |
| LegacyParsedFtl.Values | fluentogram/typing_generator/parsed_ftl.py:80-81 | the values of the nodes, one per node, in order |
| LegacyParsedFtl.Translations | fluentogram/typing_generator/parsed_ftl.py:176-180 | one translation per stored node, same keys in the same order, the node's value as text and its arguments deduplicated as an ordered set |
| LegacyParsedFtl.ParsedRawFtl.constructor | fluentogram/typing_generator/parsed_ftl.py:37-39 | the object holds the parsed resource and no nodes yet |
| LegacyParsedFtl.ParsedRawFtl.CollectNamed | fluentogram/typing_generator/parsed_ftl.py:70-72 | the loop collects the text of every named argument |
| LegacyParsedFtl.ParsedRawFtl.CollectArgs | fluentogram/typing_generator/parsed_ftl.py:83-85 | the loop concatenates every positional's arguments in order |
| LegacyParsedFtl.ParsedRawFtl.ParseFunctionReference | fluentogram/typing_generator/parsed_ftl.py:69-90 | `_parse_function_reference` returns the function node, or the missing-reference failure of a positional |
| LegacyParsedFtl.ParsedRawFtl.AppendVariant | fluentogram/typing_generator/parsed_ftl.py:114-128 | the inner loop appends one line per text or placeable element of the variant, or fails on a missing reference |
| LegacyParsedFtl.ParsedRawFtl.ParseSelectExpression | fluentogram/typing_generator/parsed_ftl.py:108-131 | `_parse_select_expression` returns the selector head, every variant line and the closing brace, with the selector's arguments first |
| LegacyParsedFtl.ParsedRawFtl.ParseMessage | fluentogram/typing_generator/parsed_ftl.py:145-159 | `_parse_message` concatenates the nodes of the pattern's elements, or fails on a missing reference |
| LegacyParsedFtl.ParsedRawFtl.ParseBody | fluentogram/typing_generator/parsed_ftl.py:161-174 | the nodes and the re-queued messages are those of the model of `_parse_body`; the result is the nodes when the walk ends |
| LegacyParsedFtl.ParsedRawFtl.GetMessages | fluentogram/typing_generator/parsed_ftl.py:176-180 | `get_messages` returns the translations of the parsed body |
| LegacyParsedFtl.RequeuedAppend | fluentogram/typing_generator/parsed_ftl.py:172 | messages re-queued in two stretches are re-queued in that order |
| LegacyParsedFtl.RequeuedNone | fluentogram/typing_generator/parsed_ftl.py:172 | re-queueing onto a finished state gives those messages |
| LegacyParsedFtl.OnlyFailure | fluentogram/typing_generator/parsed_ftl.py:52-53 | the only way parsing fails is `ReferenceNotExists` |
| LegacyParsedFtl.PositionalsFail | fluentogram/typing_generator/parsed_ftl.py:74-78 | a positional that fails makes the whole positional list fail |
| LegacyParsedFtl.VariantLinesFail | fluentogram/typing_generator/parsed_ftl.py:114-128 | an element that fails makes the whole variant fail |
| LegacyParsedFtl.VariantsFail | fluentogram/typing_generator/parsed_ftl.py:113-128 | a variant that fails makes the whole select expression fail |
| LegacyParsedFtl.ElementNodesFail | fluentogram/typing_generator/parsed_ftl.py:147-153 | an element that fails makes the whole message fail |
| LegacyParsedFtl.BodyKeepsDict | fluentogram/typing_generator/parsed_ftl.py:161-174 | the nodes stay a well-formed dictionary throughout `_parse_body` |
| LegacyParsedFtl.VariableReferenceNode | fluentogram/typing_generator/parsed_ftl.py:102-136 | a variable placeable gives "{ $id }" with that one argument, inline or not |
| LegacyParsedFtl.MessageReferenceNode | fluentogram/typing_generator/parsed_ftl.py:51-54 | a stored message reference yields the stored node; a missing one fails with `ReferenceNotExists` |
| LegacyParsedFtl.NothingFromTermsAndOthers | fluentogram/typing_generator/parsed_ftl.py:99-106 | a term reference, and an inline expression of another kind, give the empty node |
| LegacyParsedFtl.JoinNonEmpty | fluentogram/typing_generator/parsed_ftl.py:80 | joining named texts whose first is non-empty gives a non-empty string |
| LegacyParsedFtl.FunctionNodeOf | fluentogram/typing_generator/parsed_ftl.py:80-90 | a function node is "{ ID(positionals, named) }" with a comma only when there are named arguments, and the positionals' arguments |
| LegacyParsedFtl.FunctionReferenceShape | fluentogram/typing_generator/parsed_ftl.py:80-90 | without named arguments the call text ends "positionals )", with them "positionals, named)" |
| LegacyParsedFtl.CallText | fluentogram/typing_generator/parsed_ftl.py:88 | the call template's comma appears exactly when there are named arguments |
| LegacyParsedFtl.SelectVariantsExample | fluentogram/typing_generator/parsed_ftl.py:113-128 | example: a plain and a default variant give "\n[k1] t1" and "\n*[k2] { $y }", collecting `y` |
| LegacyParsedFtl.SelectExample | fluentogram/typing_generator/parsed_ftl.py:108-131 | example: a whole select expression renders as "{ $s ->", its variant lines and "\n}", with arguments `s` then `y` |
| LegacyParsedFtl.VariantPerElement | fluentogram/typing_generator/parsed_ftl.py:114-127 | a variant with two text elements produces two lines, each with the variant's key |
| LegacyParsedFtl.ArgsOfConcat | fluentogram/typing_generator/parsed_ftl.py:155-158 | the arguments of two node runs are those of the first followed by those of the second |
| LegacyParsedFtl.ElementNodesPrefix | fluentogram/typing_generator/parsed_ftl.py:147-153 | the nodes of a prefix of a pattern do not depend on what follows |
| LegacyParsedFtl.ElementNodesConcat | fluentogram/typing_generator/parsed_ftl.py:147-153 | the nodes of two patterns in a row are the nodes of each, or a failure when either fails |
| LegacyParsedFtl.MessageConcat | fluentogram/typing_generator/parsed_ftl.py:145-159 | a message built of two patterns has both values and both argument lists concatenated, or fails when either fails |
| LegacyParsedFtl.BodyKeys | fluentogram/typing_generator/parsed_ftl.py:163-170 | only messages with a value are stored; comments, terms, junk and valueless messages are skipped |
| LegacyParsedFtl.MoreFuel | fluentogram/typing_generator/parsed_ftl.py:163-174 | once the walk finishes, a larger re-queue bound changes nothing |
| LegacyParsedFtl.ForwardReference | fluentogram/typing_generator/parsed_ftl.py:169-173 | example: a message that refers to a later one is re-queued once and then stored with the referenced text |
| LegacyParsedFtl.RequeuedPass | fluentogram/typing_generator/parsed_ftl.py:163-174 | example: in the order referenced first, referrer second, both are stored in one pass without re-queueing |
| LegacyParsedFtl.StoreReferrer | fluentogram/typing_generator/parsed_ftl.py:169-170 | example: a referrer whose referenced message is already stored is stored with the referenced node |
| LegacyParsedFtl.ReferenceMissing | fluentogram/typing_generator/parsed_ftl.py:52-53 | a reference to a message not stored yet fails |
| LegacyParsedFtl.TextMessage | fluentogram/typing_generator/parsed_ftl.py:145-159 | a message of one text element is that text with no arguments |
| LegacyParsedFtl.ReferenceFound | fluentogram/typing_generator/parsed_ftl.py:54 | a reference to a stored message takes over its text |
| LegacyParsedFtl.LiteralText | fluentogram/typing_generator/parsed_ftl.py:41-49 | defines the text of a literal: a string literal's value, or the number as it is formatted with its precision |
| LegacyParsedFtl.KeyName | fluentogram/typing_generator/parsed_ftl.py:121-124 | defines the key of a variant as written: the identifier's name, or the formatted number |
| LegacyParsedFtl.VariantLine | fluentogram/typing_generator/parsed_ftl.py:127 | defines one variant line: "\n", "*" for the default variant, "[key] " and the element's text |
| LegacyParsedFtl.SelectHead | fluentogram/typing_generator/parsed_ftl.py:110 | defines the head of a select expression: "{ ", the selector's variables each with "$", joined with ", ", then " ->" |
| LegacyParsedFtl.ArgsOf | fluentogram/typing_generator/parsed_ftl.py:83-85 | defines the arguments of a run of nodes: each node's `args`, one list after another |
| LegacyParsedFtl.Extend | fluentogram/typing_generator/parsed_ftl.py:127-128 | defines `value +=` and `args +=` with a node that was parsed, or that node's failure |
| LegacyParsedFtl.PlaceableNode | fluentogram/typing_generator/parsed_ftl.py:133-143 | defines `_parse_placeable`: a variable reference, a select expression, an inline expression, or a nested placeable parsed again |
| LegacyParsedFtl.InlineNode | fluentogram/typing_generator/parsed_ftl.py:92-106 | defines `_parse_inline_expression`: literals as text, a stored message's node or `ReferenceNotExists`, a variable, a function call, and the empty node for a term reference or anything else |
| LegacyParsedFtl.FunctionNode | fluentogram/typing_generator/parsed_ftl.py:69-90 | defines `_parse_function_reference`: "{ ID(positionals, named) }", with the comma only when there are named arguments, and the positionals' arguments |
| LegacyParsedFtl.PositionalNode | fluentogram/typing_generator/parsed_ftl.py:75-78 | defines one positional argument: a placeable through `_parse_placeable`, anything else through `_parse_inline_expression` |
| LegacyParsedFtl.PositionalNodes | fluentogram/typing_generator/parsed_ftl.py:73-78 | defines the loop over the positional arguments: their nodes in order, or the first failure |
| LegacyParsedFtl.SelectNode | fluentogram/typing_generator/parsed_ftl.py:108-131 | defines `_parse_select_expression`: the head, the lines of every variant and "\n}"; the selector's arguments, then the variants' |
| LegacyParsedFtl.VariantsNode | fluentogram/typing_generator/parsed_ftl.py:113-128 | defines the outer loop over the variants: their lines one after another, or the first failure |
| LegacyParsedFtl.VariantLines | fluentogram/typing_generator/parsed_ftl.py:114-128 | defines the inner loop over one variant's elements: one line per element, or the first failure |
| LegacyParsedFtl.ElementNode | fluentogram/typing_generator/parsed_ftl.py:148-151 | defines one pattern element: a text element's value, or a placeable through `_parse_placeable` |
| LegacyParsedFtl.ElementNodes | fluentogram/typing_generator/parsed_ftl.py:146-153 | defines the first loop of `_parse_message`: the nodes of the pattern's elements, or the first failure |
| LegacyParsedFtl.Concat | fluentogram/typing_generator/parsed_ftl.py:155-159 | defines the second loop of `_parse_message`: the values concatenated and the arguments concatenated |
| LegacyParsedFtl.MessageNode | fluentogram/typing_generator/parsed_ftl.py:145-159 | defines `_parse_message`: the two loops in a row, or the failure of the first |
| LegacyParsedFtl.BodyFrom | fluentogram/typing_generator/parsed_ftl.py:161-174 | defines the loop of `_parse_body` from a given entry: entries other than messages with a value are skipped, a message is stored or, on `ReferenceNotExists`, appended to the body again |
| LegacyParsedFtl.Requeued | fluentogram/typing_generator/parsed_ftl.py:172 | defines a loop state with messages appended to the body in front of those it appended itself |
| LegacyParsedFtl.MessageIds | fluentogram/typing_generator/parsed_ftl.py:163-170 | defines the ids of the body's messages that have a value, the only ones `_parse_body` can store |
| LegacyTree.IsLeafKeys | fluentogram/typing_generator/tree.py:17-21 | a node is a leaf exactly when it has no child names |
| LegacyTree.CapitalizeFirst | fluentogram/typing_generator/tree.py:41 | `s[0].capitalize() + s[1:]` upper-cases the first character and keeps the rest and the length |
| LegacyTree.CleanPathSkipsEmpty | fluentogram/typing_generator/tree.py:41 | empty segments, at either end, contribute nothing to the path text |
| LegacyTree.CleanPathFront | fluentogram/typing_generator/tree.py:41 | the leading "" segment every path starts with is filtered out |
| LegacyTree.CleanPathSnoc | fluentogram/typing_generator/tree.py:41 | a non-empty last segment adds itself with its first letter capitalized |
| LegacyTree.PathToStrExample | fluentogram/typing_generator/tree.py:40-42 | example: the path ("", "greet", "by") becomes "GreetBy" with the default safe separator |
| LegacyTree.NewNode | fluentogram/typing_generator/tree.py:45-51 | the node has no children and its name; a translation gives it its text and variables, no translation "" and none |
| LegacyTree.Alloc | fluentogram/typing_generator/tree.py:45-51 | a new node is stored after the existing ones and nothing else changes |
| LegacyTree.SetChild | fluentogram/typing_generator/tree.py:57 | `self.elements[path].children[name] = ...` keeps the registry and the number of nodes |
| LegacyTree.Register | fluentogram/typing_generator/tree.py:59 | `setdefault` leaves the path registered and the nodes unchanged |
| LegacyTree.Up | fluentogram/typing_generator/tree.py:55 | `path[:-1]` followed by `path[-1]` is the path, and is shorter |
| LegacyTree.AfterBuild | fluentogram/typing_generator/tree.py:44-59 | `_build` registers the full path and allocates at least the new node |
| LegacyTree.BuildParent | fluentogram/typing_generator/tree.py:53-55 | after the parent step a non-empty parent path is registered |
| LegacyTree.FullPath | fluentogram/typing_generator/tree.py:36-38 | a key's node is registered under "" followed by its dash segments |
| LegacyTree.BuildKeys | fluentogram/typing_generator/tree.py:35-38 | building every key in order keeps all references valid |
| LegacyTree.BuildKeysStep | fluentogram/typing_generator/tree.py:35-38 | one loop step builds the next key from its split path and last segment |
| LegacyTree.Tree.constructor | fluentogram/typing_generator/tree.py:25-38 | the tree's elements are those of building every key in the catalogue's order; separators and catalogue kept |
| LegacyTree.Tree.Build | fluentogram/typing_generator/tree.py:44-59 | `_build` changes the elements and nodes as `AfterBuild` says and nothing else |
| LegacyTree.KeepsTrans | fluentogram/typing_generator/tree.py:44-59 | keeping nodes up to their children is transitive |
| LegacyTree.KeepsBlank | fluentogram/typing_generator/tree.py:57 | changing children only keeps nodes without value blank |
| LegacyTree.SetChildKeeps | fluentogram/typing_generator/tree.py:57 | setting a child changes no node's path, name, value or variables |
| LegacyTree.BuildNodes | fluentogram/typing_generator/tree.py:44-59 | `_build` keeps every earlier node up to its children, stores the new node, and every parent it creates has no value |
| LegacyTree.BuildParentNodes | fluentogram/typing_generator/tree.py:53-55 | the parent step keeps earlier nodes up to their children and creates only blank nodes |
| LegacyTree.SetDefaultPaths | fluentogram/typing_generator/tree.py:59 | `setdefault` keeps every registered path and adds at most the full path, with the new node when absent |
| LegacyTree.BuildPaths | fluentogram/typing_generator/tree.py:44-59 | `_build` keeps every registered path and registers only prefixes of the full path |
| LegacyTree.CombinePaths | fluentogram/typing_generator/tree.py:55-59 | the parent's prefixes and the full path together are prefixes of the full path |
| LegacyTree.PrefixOfPrefix | fluentogram/typing_generator/tree.py:55 | a prefix of the parent path is a prefix of the full path |
| LegacyTree.BuildParentPaths | fluentogram/typing_generator/tree.py:53-55 | the parent step keeps every registered path and registers only prefixes of the parent path |
| LegacyTree.BuildRegisters | fluentogram/typing_generator/tree.py:53-59 | an already registered full path keeps its node, a new one gets the new node, and the parent lists the new node under its name |
| LegacyTree.SetDefaultPrefixClosed | fluentogram/typing_generator/tree.py:59 | registering a path whose prefixes are registered keeps the registry prefix-closed |
| LegacyTree.BuildPrefixClosed | fluentogram/typing_generator/tree.py:44-59 | `_build` keeps the registry prefix-closed |
| LegacyTree.BuildParentPrefixClosed | fluentogram/typing_generator/tree.py:53-55 | the parent step keeps the registry prefix-closed and registers every non-empty prefix of the parent path |
| LegacyTree.RegisteredStep | fluentogram/typing_generator/tree.py:35-38 | keys registered before stay registered when one more is added |
| LegacyTree.BuildKeysRegistered | fluentogram/typing_generator/tree.py:35-38 | after the loop every key's full path is registered |
| LegacyTree.BuildKeysPrefixClosed | fluentogram/typing_generator/tree.py:35-38 | after the loop the registry is prefix-closed |
| LegacyTree.PrefixRegistered | fluentogram/typing_generator/tree.py:53-55 | in a prefix-closed registry every non-empty prefix of a registered path is registered |
| LegacyTree.TreeHoldsKeys | fluentogram/typing_generator/tree.py:25-38 | the built tree registers every non-empty prefix of every key's full path |
| LegacyTree.IsLeaf | fluentogram/typing_generator/tree.py:17-21 | defines `is_leaf`: the children dict is empty |
| LegacyTree.CleanPath | fluentogram/typing_generator/tree.py:41 | defines `clean_path`: the non-empty segments, in order, each with its first character capitalized |
| LegacyTree.PathToStr | fluentogram/typing_generator/tree.py:40-42 | defines `path_to_str`: the clean path joined with the safe separator |
| LegacyTree.KeyPath | fluentogram/typing_generator/tree.py:36-37 | defines `point_path`: "" followed by all of the key's dash segments but the last |
| LegacyTree.KeyLeaf | fluentogram/typing_generator/tree.py:36 | defines `name`: the key's last dash segment |
| LegacyTree.Tree.PathText | fluentogram/typing_generator/tree.py:40-42 | defines `path_to_str` with the tree's own safe separator |
| LegacyRenderable.Knot.constructor | fluentogram/typing_generator/renderable_items.py:62-66 | a knot starts with its name, no variables and no methods |
| LegacyRenderable.Knot.Runner | fluentogram/typing_generator/renderable_items.py:85-92 | a runner is a knot named "TranslatorRunner" unless another name is given, marked to render with the runner template |
| LegacyRenderable.Knot.AddVar | fluentogram/typing_generator/renderable_items.py:78-79 | appends the variable and changes nothing else |
| LegacyRenderable.Knot.AddMethod | fluentogram/typing_generator/renderable_items.py:81-82 | appends the method and changes nothing else |
| LegacyRenderable.Knot.Render | fluentogram/typing_generator/renderable_items.py:68-76 | `render` gives the header, the variables, a blank line only with variables, and every method followed by a blank line |
| LegacyRenderable.KnotEndsWithNewline | fluentogram/typing_generator/renderable_items.py:68-76 | every knot and runner rendering ends with "\n" |
| LegacyRenderable.KnotAddMethod | fluentogram/typing_generator/renderable_items.py:74-82 | adding a method appends exactly its text and a blank line |
| LegacyRenderable.KnotAddVar | fluentogram/typing_generator/renderable_items.py:70-79 | adding a variable puts it after the earlier ones and before the blank line and the methods |
| LegacyRenderable.VarDefault | fluentogram/typing_generator/renderable_items.py:47-56 | a variable without or with an empty full name is typed by its own name, unfiltered |
| LegacyRenderable.KnotNameVerbatim | fluentogram/typing_generator/renderable_items.py:60 | a knot's header shows its name as given, not title-cased |
| LegacyRenderable.KnotEscapesTranslation | fluentogram/typing_generator/renderable_items.py:25-29 | an apostrophe in a knot method's translation renders as "&#39;" and a greater-than sign as "&gt;" |
| LegacyRenderable.VarText | fluentogram/typing_generator/renderable_items.py:47-50 | defines `Var.render()`: "    name: full" with no filter, then the "\n" of `RenderAble.render` |
| LegacyRenderable.KnotHeader | fluentogram/typing_generator/renderable_items.py:60-69 | defines the header of `Knot.render`: the template "\nclass Name:" (Jinja drops its trailing newline) and then "\n" |
| LegacyRenderable.KnotText | fluentogram/typing_generator/renderable_items.py:68-76 | defines `Knot.render`, and `Runner.render` with the runner template: header, variables, "\n" only with variables, every method followed by one more "\n" |
| LegacyStubs.KnotOf | fluentogram/typing_generator/stubs.py:25-43 | a node's knot is named by its path text (the root's by the runner name), has `__call__` first when it has a value, else only its leaf children's methods, and a variable per inner child |
| LegacyStubs.Parents | fluentogram/typing_generator/stubs.py:22-24 | the paths a stub is rendered for are registered paths |
| LegacyStubs.Rendered | fluentogram/typing_generator/stubs.py:44 | one rendered text per knot |
| LegacyStubs.RenderedSnoc | fluentogram/typing_generator/stubs.py:44 | a later knot's text comes after the earlier ones |
| LegacyStubs.BlocksStep | fluentogram/typing_generator/stubs.py:22-24 | one loop step adds a knot for a node that is not a leaf and nothing for a leaf |
| LegacyStubs.AppendAll | fluentogram/typing_generator/stubs.py:18-19 | every stub is appended to the content, in order |
| LegacyStubs.AddChildInto | fluentogram/typing_generator/stubs.py:35-43 | one loop iteration adds the child's method or variable as the child rules say |
| LegacyStubs.AddChildren | fluentogram/typing_generator/stubs.py:34-43 | the loop over the children leaves the knot equal to the node's knot |
| LegacyStubs.Stubs.constructor | fluentogram/typing_generator/stubs.py:14-19 | the content is the Literal import header followed by the rendered knot of every node that is not a leaf, in registry order |
| LegacyStubs.Stubs.GenStubs | fluentogram/typing_generator/stubs.py:21-44 | `_gen_stubs` yields the rendered knot of every inner node in registry order |
| LegacyStubs.Stubs.RenderNode | fluentogram/typing_generator/stubs.py:25-44 | one inner node renders as its knot, with the runner template at the root |
| LegacyStubs.Stubs.Echo | fluentogram/typing_generator/stubs.py:50-51 | `echo` returns the content |
| LegacyStubs.BlocksPerKnot | fluentogram/typing_generator/stubs.py:21-44 | there is one knot per inner node, each built from that node |
| LegacyStubs.LeavesAddNothing | fluentogram/typing_generator/stubs.py:23-24 | leaves produce no stub |
| LegacyStubs.RootOnly | fluentogram/typing_generator/stubs.py:25-28 | when only the root has children, the output is the runner alone |
| LegacyStubs.ChildStep | fluentogram/typing_generator/stubs.py:34-43 | each child adds its method (a valued leaf) or its variable (an inner node) to the lists built from the earlier children |
| LegacyStubs.ChildRules | fluentogram/typing_generator/stubs.py:35-43 | a valued leaf child adds a method, a valueless leaf nothing, an inner child a variable typed by its path text (or its name when that is empty) |
| LegacyStubs.NodeAt | fluentogram/typing_generator/stubs.py:22 | defines `self.nodes[path]`, the node registered under a path |
| LegacyStubs.Child | fluentogram/typing_generator/stubs.py:34 | defines `node.children[name]`, the child node registered under a name |
| LegacyStubs.ChildMethods | fluentogram/typing_generator/stubs.py:34-41 | defines the methods the loop over the children adds: one per leaf child with a value, in children order |
| LegacyStubs.ChildVars | fluentogram/typing_generator/stubs.py:34-43 | defines the variables that loop adds: one per child that is not a leaf, typed by the child's path text |
| LegacyStubs.Block | fluentogram/typing_generator/stubs.py:25-44 | defines what `_gen_stubs` renders for one inner node: its knot, and whether it is the root's `Runner` |
| LegacyStubs.Blocks | fluentogram/typing_generator/stubs.py:21-44 | defines the loop of `_gen_stubs` over a run of registered paths: leaves are skipped, every other node gives its block, in registry order |
| LegacyStubs.Concat | fluentogram/typing_generator/stubs.py:18-19 | defines the stubs written one after another |
| FtlToStub.Get | fluentogram/cli/ftl_to_stub.py:46 | a key has a value exactly when an entry carries it |
| FtlToStub.Assign | fluentogram/cli/ftl_to_stub.py:50 | `data[key] = ...` gives the key the new value and leaves every other key alone |
| FtlToStub.SetDefault | fluentogram/cli/ftl_to_stub.py:46 | `setdefault` returns the existing value and changes nothing, or appends the key with the default and returns that; other keys unchanged |
| FtlToStub.GetAppend | fluentogram/cli/ftl_to_stub.py:46 | appending a missing key makes it map to its value and changes no other key |
| FtlToStub.Insert | fluentogram/cli/ftl_to_stub.py:44-50 | a successful `_build_nested_dict` consumes one value from the iterator and leaves it as the text at the key's path |
| FtlToStub.Values | fluentogram/cli/ftl_to_stub.py:55 | the iterator yields the item values in key order |
| FtlToStub.Paths | fluentogram/cli/ftl_to_stub.py:58 | each key is split at the separator into a non-empty path |
| FtlToStub.RawItemsToNestedDict | fluentogram/cli/ftl_to_stub.py:53-59 | the loop builds the nested dict of the items, or the error one of its keys raises |
| FtlToStub.WalkStopsAtStr | fluentogram/cli/ftl_to_stub.py:44-50 | nothing is reachable below a text |
| FtlToStub.InsertKeeps | fluentogram/cli/ftl_to_stub.py:44-50 | inserting a key changes nothing at a path that is neither a prefix nor an extension of it |
| FtlToStub.WalkSameHead | fluentogram/cli/ftl_to_stub.py:46 | what a path reaches depends only on the entry of its first segment |
| FtlToStub.NothingInEmpty | fluentogram/cli/ftl_to_stub.py:54 | the empty dict holds nothing |
| FtlToStub.InsertMakesTrees | fluentogram/cli/ftl_to_stub.py:46-48 | after inserting, every proper prefix of the key's path reaches a dict |
| FtlToStub.InsertTexts | fluentogram/cli/ftl_to_stub.py:44-50 | the only text inserting can create is the one at the key's path |
| FtlToStub.InsertSucceeds | fluentogram/cli/ftl_to_stub.py:44-50 | inserting succeeds when a value is left and no proper prefix of the path holds a text |
| FtlToStub.HoldsStep | fluentogram/cli/ftl_to_stub.py:57-58 | a key unrelated to every earlier one by prefix is inserted, and every earlier key keeps its text |
| FtlToStub.NextApart | fluentogram/cli/ftl_to_stub.py:57-58 | in a prefix-free list of paths the next path is unrelated to every earlier one |
| FtlToStub.BuildFromHolds | fluentogram/cli/ftl_to_stub.py:57-58 | with prefix-free keys the rest of the loop succeeds and every key holds its value at its path |
| FtlToStub.NestedDictRoundTrip | fluentogram/cli/ftl_to_stub.py:53-59 | when no key is a dash-prefix of another, reading any key's path back from the nested dict gives that key's value |
| FtlToStub.PrefixFirstRaises | fluentogram/cli/ftl_to_stub.py:14-48 | "a" followed by "a-b" fails: the text at "a" is not a dict (the error the docstring warns about) |
| FtlToStub.PrefixLastOverwrites | fluentogram/cli/ftl_to_stub.py:46-50 | "a-b" followed by "a" replaces the dict at "a" with the second value |
| FtlToStub.SoftCapitalize | fluentogram/cli/ftl_to_stub.py:62-64 | `soft_capitalize` upper-cases the first character and keeps the rest; the empty string fails (the IndexError of `string[0]`) |
| FtlToStub.AttrLinesLoop | fluentogram/cli/ftl_to_stub.py:73-75 | the attribute loop gives one line per dict-valued entry, or the empty-name failure |
| FtlToStub.AttrLinesFailureStays | fluentogram/cli/ftl_to_stub.py:73-75 | once the attribute loop fails, the rest of it does not matter |
| FtlToStub.RecursiveBuildStub | fluentogram/cli/ftl_to_stub.py:67-79 | `_recursive_build_stub` gives the stub text of the dict, or the failure of an empty class name |
| FtlToStub.PrependStep | fluentogram/cli/ftl_to_stub.py:69-79 | `text +=` of a piece and then the rest is the same as prepending both |
| FtlToStub.NestedDictToStub | fluentogram/cli/ftl_to_stub.py:82-85 | the stub is the Literal import line and the stub text of the root class wrapping the dict |
| FtlToStub.AttrLinesFailure | fluentogram/cli/ftl_to_stub.py:73-75 | the attribute lines fail exactly when some dict-valued entry has an empty key |
| FtlToStub.AttrLinesOfTexts | fluentogram/cli/ftl_to_stub.py:74 | a dict of texts only has no attribute lines |
| FtlToStub.ItemsTextFailsBefore | fluentogram/cli/ftl_to_stub.py:69-76 | a dict-valued entry with an empty key makes the loop fail from any earlier entry |
| FtlToStub.ClassKeyEmptyFails | fluentogram/cli/ftl_to_stub.py:72 | a class with an empty name fails the whole rendering |
| FtlToStub.EmptyRootFails | fluentogram/cli/ftl_to_stub.py:72-84 | an empty root class name fails |
| FtlToStub.EmptyClassNameFails | fluentogram/cli/ftl_to_stub.py:75 | an empty key of a nested dict fails at its attribute line |
| FtlToStub.OneText | fluentogram/cli/ftl_to_stub.py:67-85 | example: one text under the root gives the import, the capitalized root class and one static method |
| FtlToStub.OneNested | fluentogram/cli/ftl_to_stub.py:67-85 | example: one nested dict gives the root class with the attribute, then the nested class with its method |
| FtlToStub.NestedClass | fluentogram/cli/ftl_to_stub.py:70-78 | example: a dict entry gives its attribute line in the parent and its own class with the methods of its texts |
| FtlToStub.Walk | fluentogram/cli/ftl_to_stub.py:44-50 | defines what a path of segments reaches in the nested dict: the value under the last segment, nothing when a segment is missing or an earlier one holds a text; the reading-back partner of `_build_nested_dict` |
| FtlToStub.BuildFrom | fluentogram/cli/ftl_to_stub.py:57-59 | defines the loop of `_raw_items_to_nested_dict` from a given dict and iterator rest: each key inserted in order, or the first error |
| FtlToStub.NestedDict | fluentogram/cli/ftl_to_stub.py:53-59 | defines `_raw_items_to_nested_dict`: the ValueError of `split("")` when there is a key and the separator is empty, otherwise the loop from `{}` and the iterator over the values |
| FtlToStub.MethodStub | fluentogram/cli/ftl_to_stub.py:78 | defines the stub of a text entry: a static method returning `Literal["value"]` and a blank line |
| FtlToStub.AttrLines | fluentogram/cli/ftl_to_stub.py:73-75 | defines the attribute loop: "    name: 'Name'\n" per dict-valued entry, or the IndexError of an empty name |
| FtlToStub.ItemsText | fluentogram/cli/ftl_to_stub.py:67-79 | defines `_recursive_build_stub` from a given entry on: each entry's method stub or class stub, in order, or the first error |
| FtlToStub.ClassStub | fluentogram/cli/ftl_to_stub.py:70-76 | defines the class stub of a dict entry: "\nclass Name:\n", its attribute lines, then `_recursive_build_stub` of its dict |
| FtlToStub.NestedToStub | fluentogram/cli/ftl_to_stub.py:82-85 | defines `_nested_dict_to_stub`: the Literal import line and the stub of `{root_class_name: nested_dict}` |
| FtlToStub.ItemsToStub | fluentogram/cli/ftl_to_stub.py:25-28 | defines `ftl_to_stub` once the raw items are read: the nested dict with separator "-", then its stub, or the first error |
| FtlToStub.Prepend | fluentogram/cli/ftl_to_stub.py:71-76 | defines `text +=` of a piece in front of a text that may be an error |
| FtlToStub.InsertFailsBelowText | fluentogram/cli/ftl_to_stub.py:44-50 | whenever some proper prefix of a key already leads to a text, inserting the key raises at the first segment below that text, whatever the key's length |
| FtlToStub.InsertOutcome | fluentogram/cli/ftl_to_stub.py:44-50 | inserting a key succeeds exactly when some value is left and no proper prefix of the key leads to a text |
| Translators.Translator.constructor | fluentogram/translator.py:17-20 | a translator holds its locale and the messages it answers |
| Translators.Translator.Update | fluentogram/translator.py:35-40 | `update_translation` changes the translator in place: the key now answers with the new message and every other key is unchanged |
| Translators.Answers | fluentogram/runner.py:21-22 | the answers of the chain to a key, one per translator, in chain order |
| Translators.Translator.Get | fluentogram/translator.py:22-33 | defines `get(key)`: the key's message, or the engine's answer for an unknown key |
| AttribTracing.AttribTracer.constructor | fluentogram/src/impl/attrib_tracer.py:12-13 | the buffer starts empty and no separator is assigned |
| AttribTracing.AttribTracer.SetSeparator | fluentogram/src/abc/runner.py:17 | a subclass that assigns `separator` keeps the buffer |
| AttribTracing.AttribTracer.GetRequestLine | fluentogram/src/impl/attrib_tracer.py:15-18 | `_get_request_line` returns the buffer and empties it |
| AttribTracing.AttribTracer.Trace | fluentogram/src/impl/attrib_tracer.py:20-25 | without an assigned separator `__getattr__` never returns (RecursionError) and the buffer is unchanged; with one it appends the name and the separator and returns the tracer itself |
| AttribTracing.TracedLineSnoc | fluentogram/src/abc/misc.py:28-33 | each traced attribute extends the buffer by its name and one separator |
| AttribTracing.TracedLineJoin | fluentogram/src/abc/misc.py:12-33 | tracing `obj.a.b.c` leaves the joined key "a-b-c" followed by one separator |
| AttribTracing.JoinSnoc | fluentogram/src/abc/misc.py:12-14 | joining one more name adds the separator and the name |
| AttribTracing.TracedKeyOneChar | fluentogram/src/impl/runner.py:33 | with a one-character separator, dropping the buffer's last character gives the joined key |
| AttribTracing.TracedLine | fluentogram/src/abc/misc.py:28-33 | defines the buffer after tracing a sequence of attribute names: each name followed by the separator |
| Runner.FirstText | fluentogram/runner.py:20-26 | the search fails with KeyNotFoundError only for the key asked, and otherwise only with an exception a translator raised |
| Runner.TranslatorRunner.constructor | fluentogram/runner.py:11-14 | a runner holds its translators and separator, with an empty buffer |
| Runner.TranslatorRunner.GetTranslation | fluentogram/runner.py:20-26 | the loop with its early return gives the first text of the chain, or KeyNotFoundError |
| Runner.TranslatorRunner.Get | fluentogram/runner.py:16-18 | `get` is `_get_translation` of the key |
| Runner.TranslatorRunner.Trace | fluentogram/runner.py:28-30 | `__getattr__` appends the name and the separator and returns the runner itself |
| Runner.TranslatorRunner.Call | fluentogram/runner.py:32-35 | `__call__` resolves the buffer stripped of trailing separator characters; the buffer is emptied only when the lookup returns |
| Runner.FirstTextFound | fluentogram/runner.py:21-24 | a text is returned exactly when some translator has it and every translator before it returned None |
| Runner.FirstTextNotFound | fluentogram/runner.py:26 | KeyNotFoundError is raised exactly when every translator returned None, the empty chain included |
| Runner.FirstTextIgnoresLater | fluentogram/runner.py:21-24 | once a translator answers or raises, the translators after it are not consulted |
| Runner.TracedKey | fluentogram/runner.py:28-33 | `runner.a.b()` asks for "a-b" when the last name does not end in a separator character |
| Runner.RStripTail | fluentogram/runner.py:33 | `rstrip` removes exactly a tail made of the stripped characters |
| ImplRunner.TranslatorRunner.constructor | fluentogram/impl/runner.py:12-15 | a runner holds its translators and separator, with an empty buffer |
| ImplRunner.TranslatorRunner.GetTranslation | fluentogram/impl/runner.py:21-27 | the loop gives the first text of the chain, or KeyNotFoundError |
| ImplRunner.TranslatorRunner.Get | fluentogram/impl/runner.py:17-19 | `get` is `_get_translation` of the key |
| SrcRunner.FirstAnswer | fluentogram/src/impl/runner.py:25-30 | the search fails only with an exception other than KeyError |
| SrcRunner.AbstractInit | fluentogram/src/abc/runner.py:14 | `AbstractTranslatorRunner.__init__` succeeds exactly when it is given its `translators` argument |
| SrcRunner.TranslatorRunner.constructor | fluentogram/src/impl/runner.py:15-19 | the intended `__init__`: translators, separator and an empty buffer |
| SrcRunner.TranslatorRunner.GetTranslation | fluentogram/src/impl/runner.py:25-30 | the try/continue loop gives the first answer that is not a KeyError, None included, or None when the chain runs out |
| SrcRunner.TranslatorRunner.Get | fluentogram/src/impl/runner.py:21-23 | `get` is `_get_translation` of the key |
| SrcRunner.TranslatorRunner.Call | fluentogram/src/impl/runner.py:32-35 | `__call__` resolves the buffer without its last character and empties it unless the lookup raised |
| SrcRunner.TranslatorRunner.Trace | fluentogram/src/impl/runner.py:37-39 | `__getattr__` appends the name and the separator and returns the runner itself |
| SrcRunner.InitAlwaysRaises | fluentogram/src/impl/runner.py:15-16 | `__init__` as written raises TypeError (a missing `translators` argument) on every call |
| SrcRunner.FirstAnswerSkipsKeyErrors | fluentogram/src/impl/runner.py:26-30 | the answer is that of the first translator that does not raise KeyError |
| SrcRunner.FirstAnswerExhausted | fluentogram/src/impl/runner.py:25-30 | a chain where every translator raises KeyError, the empty one included, gives None |
| SrcRunner.NoneShadowsLater | fluentogram/src/impl/runner.py:28 | a None answer ends the search although a later translator has the text |
| SrcRunner.InitAsWritten | fluentogram/src/impl/runner.py:15-16 | defines `__init__` as written: it stops at `super().__init__()`, called without arguments |
| StubsRunner.StubsTranslatorRunner.constructor | fluentogram/src/impl/stubs_translator_runner.py:5-7 | the buffer starts empty and the keyword arguments are an empty dict |
| StubsRunner.StubsTranslatorRunner.Trace | fluentogram/src/impl/stubs_translator_runner.py:4 | the inherited `__getattr__` always raises RecursionError, because nothing assigns `separator` |
| StubsRunner.StubsTranslatorRunner.Call | fluentogram/src/impl/stubs_translator_runner.py:9-12 | `__call__` returns the buffer without its last character and the keyword arguments, and empties the buffer |
| LocalesMap.Locales | fluentogram/abc/translator_hub.py:15 | a bare locale string becomes a one-element tuple, any other value is kept |
| LocalesMap.NormalizeLocalesMap | fluentogram/abc/translator_hub.py:14-15 | normalising keeps the keys in order and normalises every value |
| LocalesMap.Index | fluentogram/impl/translator_hub.py:26-28 | the storage dict is keyed by exactly the translators' locales |
| LocalesMap.Chain | fluentogram/impl/translator_hub.py:39 | a chain has at most one translator per configured locale, each taken from the storage |
| LocalesMap.ParseMap | fluentogram/impl/translator_hub.py:34-41 | `_locales_map_parser` gives every language of the map its chain, keys in order |
| LocalesMap.Select | fluentogram/impl/translator_hub.py:51 | a non-empty chain of the locale is used; otherwise the root's; KeyError exactly when both are unavailable |
| LocalesMap.NormalizeKeepsIterables | fluentogram/abc/translator_hub.py:15 | a map without bare strings normalises to itself |
| LocalesMap.IndexLastWins | fluentogram/impl/translator_hub.py:26-28 | for a locale, the last translator with that locale is the one stored |
| LocalesMap.ChainAppend | fluentogram/impl/translator_hub.py:39 | the chain of two locale lists in a row is the two chains in a row |
| LocalesMap.ChainAllKnown | fluentogram/impl/translator_hub.py:39 | when every configured locale has a translator the chain holds them all, in configured order |
| LocalesMap.ChainEmpty | fluentogram/impl/translator_hub.py:39 | a chain is empty exactly when none of its locales has a translator |
| LocalesMap.FallbackToRoot | fluentogram/impl/translator_hub.py:51 | a language none of whose locales has a translator gets the root's chain |
| LocalesMap.RuFallsToEn | tests/test_update.py:25-30 | example: `{"ru": ("ru", "en")}` with only an "en" translator gives "ru" the chain of the "en" translator |
| ImplHub.TranslatorHub.constructor | fluentogram/impl/translator_hub.py:22-32 | the hub keeps the normalised map, the storage index and the parsed chains |
| ImplHub.TranslatorHub.GetTranslatorByLocale | fluentogram/impl/translator_hub.py:43-53 | every lookup returns a fresh runner over the selected chain, with the hub's separator, or the KeyError of a missing root |
| ImplHub.NewHub | fluentogram/impl/translator_hub.py:15-32 | construction raises RootTranslatorNotFoundError exactly when no translator has the root locale |
| ImplHub.OwnChainUsed | fluentogram/impl/translator_hub.py:39-51 | a language with a locale that has a translator is served by its own chain |
| SrcHub.TranslatorHub.constructor | fluentogram/src/impl/transator_hubs/translator_hub.py:24-41 | the hub keeps the inline-normalised map, the storage index and the parsed chains |
| SrcHub.TranslatorHub.GetTranslatorByLocale | fluentogram/src/impl/transator_hubs/translator_hub.py:56-67 | the corrected lookup: a fresh runner over the selected chain, built with the corrected `__init__` of `SrcRunner.TranslatorRunner`, or the KeyError of a missing root |
| SrcHub.TranslatorHub.LookupAsWritten | fluentogram/src/impl/transator_hubs/translator_hub.py:56-67 | defines the lookup as written: the selected chain handed to the `__init__` of fluentogram/src/impl/runner.py as written |
| SrcHub.TranslatorHub.LookupAlwaysRaises | fluentogram/src/impl/transator_hubs/translator_hub.py:64-67 | as written, a lookup that selects a chain raises the TypeError of the runner's `__init__`, and every other lookup fails with the hub's error: no lookup hands out a runner |
| SrcHub.NewHub | fluentogram/src/impl/transator_hubs/translator_hub.py:17-41 | construction raises NotImplementedRootLocaleTranslator exactly when no translator has the root locale |
| OldHub.Iterated | fluentogram/src/impl/translator_hub.py:37 | iterating a bare locale string walks its characters, an iterable its locales |
| OldHub.Lookups | fluentogram/src/impl/translator_hub.py:37 | one lookup per configured locale, None where there is no translator |
| OldHub.TranslatorHub.constructor | fluentogram/src/impl/translator_hub.py:20-25 | the hub keeps the map as given and indexes the translators |
| OldHub.TranslatorHub.GetTranslatorByLocale | fluentogram/src/impl/translator_hub.py:29-38 | a locale missing from the map raises TypeError; otherwise every configured locale is looked up, unfiltered |
| OldHub.NewHub | fluentogram/src/impl/translator_hub.py:16-27 | construction raises NotImplementedRootLocaleTranslator exactly when no translator has the root locale |
| OldHub.BareStringSplitsIntoCharacters | fluentogram/src/impl/translator_hub.py:37 | example: `{"en": "en"}` looks up "e" and "n", so the chain is [None, None] |
| Hub.Storage.constructor | fluentogram/translator_hub.py:25 | a new storage holds nothing |
| Hub.Storage.AddTranslators | fluentogram/translator_hub.py:28 | `add_translators` appends the translators and is recorded |
| Hub.Storage.SetLocalesMap | fluentogram/translator_hub.py:31 | `set_locales_map` replaces the map and is recorded |
| Hub.TranslatorHub.constructor | fluentogram/translator_hub.py:22-25 | the hub holds its root locale, separator and storage |
| Hub.TranslatorHub.GetTranslatorByLocale | fluentogram/translator_hub.py:36-51 | every lookup returns a fresh runner with the hub's separator, over the locale's translators, or the root's when the locale has none |
| Hub.NewHub | fluentogram/translator_hub.py:14-34 | the translators go to the storage before the map; RootTranslatorNotFoundError exactly when the storage has no root translator; a given storage is used, else a new one |
| Hub.UpdateIsVisible | tests/test_update.py:6-46 | a runner obtained from `get_translator_by_locale` and then an `update_translation` made through the storage for the chain's first locale: the runner answers the key with the new text, because it shares the storage's translator objects |
| Hub.Storage.UpdateTranslation | tests/test_update.py:21 | `storage.update_translation(locale, key, value)` updates the stored translator of the locale in place: after the call it answers the key with the new text |
| Hub.Storage.HasTranslator | fluentogram/translator_hub.py:33 | defines `has_translator`: the storage holds a translator for the locale |
| Hub.Storage.TranslatorsFor | fluentogram/translator_hub.py:43 | defines `get_translators_for_language`: the chain of the locales the map gives the language, empty for an unmapped language |
| Hub.TranslatorHub.Translators | fluentogram/translator_hub.py:53-56 | defines the `translators` property: the storage's translators |
| Hub.TranslatorHub.TranslatorsMap | fluentogram/translator_hub.py:58-61 | defines the `translators_map` property: the storage's map resolved against its translators |

## Left out

- FTL text parsing (`fluent.syntax`'s `FluentParser`) is foreign: every operation starts from the AST datatype in `FluentAst`.
- The formatting engine behind `fluentogram/translator.py` and `fluentogram/src/impl/translator.py` (`fluent_compiler`) is foreign. A translator answers each key with a `Reply`: a text, None, KeyError or another error. Keyword arguments go only to that engine, so the runners do not carry them.
- The data transformers (`fluentogram/transformers/`, `fluentogram/src/impl/transformers/`) do locale-aware number and date formatting and are not part of this model.
- Storage backends (NATS, file storage) are I/O and not part of this model. MemoryStorage is not part of this model either: `Hub.Storage` keeps what it is given and answers through the index and chains of `LocalesMap`.
- The aiogram filter, the command-line entry points, and file reads and writes (`Stubs.to_file`, the reads and writes in `Generator.generate`, `read_text`/`write_text` in `fluentogram/cli/ftl_to_stub.py`) are I/O. The models take and return the texts.
- `_ftl_bundle_to_raw_items` in `fluentogram/cli/ftl_to_stub.py` reads a `FluentBundle`, which is foreign. `FtlToStub` starts from its flat list of keys and values.
- Python's attribute protocol is left out. `__getattr__` fires only for names an object does not have, and the tracers model only that case as `Trace(item)`.
- Jinja2 and MarkupSafe are not part of this model. They are approximated by `Jinja.Fill` with MarkupSafe's five-character HTML escape (`Text.Escape`) applied to every `{{ }}` value. Jinja2 drops the one newline that ends a template.
- `str.title`, `str.capitalize` and `str.upper` are modelled on ASCII letters only. Other characters are left unchanged.
- StubParser.Parser.Parse: a message reference that never resolves makes the source recurse until Python's recursion limit. The model stops at a `depth` bound and reports `RecursionLimit`, so it states nothing about calls deeper than `depth`.
- The `TermReference` branch of `process_term` (`fluentogram/stub_generator/parser.py:28-29`) cannot run. In `fluent.syntax` a pattern element is only a TextElement or a Placeable, so a term's placeable reaches the logging branch, and the model follows that.
- The named-argument `VariableReference` check at `fluentogram/stub_generator/parser.py:86-87` cannot run. A named argument's value is a literal in `fluent.syntax`, never a variable reference.
- LegacyParsedFtl.ParsedRawFtl.ParseBody: a reference that never resolves re-queues its message forever in the source. The model allows `fuel` re-queues and reports `None` when they run out, so it states nothing about runs that need more than `fuel` re-queues. LegacyParsedFtl.ParsedRawFtl.GetMessages passes the same `fuel` bound on and gives `None` when it runs out, where the source never returns.
- Number literals in `fluentogram/typing_generator/parsed_ftl.py:47-49` are formatted through Python's float formatting. The model treats that formatting as an opaque text carried by the literal, and treats string-literal escape handling the same way.
- The legacy select expression mutates the selector's args in place (`args = selector.args` followed by `+=`). The model builds a new sequence, so an aliasing of the selector's node list is not modelled. `self.nodes` is written out as the returned node dict.
- `LegacyTree` models the node objects as an arena of indices: `elements` and `children` hold indices into one store, which keeps the sharing of node objects. The `separator` argument of `Tree.__init__` is ignored by the source, and the model ignores it too.
- The legacy `stubs.py` imports `renderable_items`, while the current `stubs.py` imports `renderable.py`. `templates.py` is modelled on its own in `StubTemplates`, because tests/test_generator.py expects its output.
- StubClasses.Runner.AddKnot stores a snapshot of the class body. The source stores the `Class` object itself, but nothing changes a class after it is added, so the rendered text is the same.
- StubGenerator.Generator.Generate: models the corrected `generate`, not the code as written. Line 5 of fluentogram/stub_generator/generator.py imports StubGeneratorKeyConflictError, which fluentogram/exceptions.py does not define. When `fluentogram.exceptions` is that module, importing generator.py raises ImportError and no `generate` can run. Lines 79-80 also store `Message` records where sets of parameter names are expected, so `sorted` at line 43 raises TypeError for every non-empty catalog without a conflict. Both are under "## Findings". The model reports the conflict as an error value carrying the simple key and its grouped keys, without the Python message wording.
- StubGenerator.ImportAsWritten: the model reads `fluentogram.exceptions` as fluentogram/exceptions.py. A directory fluentogram/exceptions/ also exists, but its `__init__.py`, if it has one, is not part of this model. A regular package of that name would be imported instead of exceptions.py, and its `__init__.py` would decide which names can be imported.
- SrcHub.NewHub: fluentogram/src/impl/transator_hubs/translator_hub.py:7 imports NotImplementedRootLocaleTranslator from `fluentogram.exceptions`, and under the reading above that import fails too (`ImportAsWritten` states it). It runs inside `import fluentogram` (fluentogram/__init__.py:3 and fluentogram/src/impl/__init__.py:6). The model takes the name as importable, as it is defined in fluentogram/exceptions/root_locale_translator.py, so that the check of lines 39-40 can raise it.
- SrcHub.TranslatorHub.GetTranslatorByLocale: builds the corrected runner of the fluentogram/src/impl/runner.py:16 finding. As written, every lookup that selects a chain raises TypeError. SrcRunner.InitAlwaysRaises is the as-written half, and SrcHub.TranslatorHub.LookupAlwaysRaises states it for the lookup.
- StubGenerator.LastPart: paths are modelled as POSIX paths (`PurePosixPath`). Only "/" separates components, so StubGenerator.Suffix does not treat the Windows separator `\` as one.
- Exception message wording (Python `repr` of keys and locales) is not modelled: errors are datatype variants carrying the key or locale.
- FtlToStub: the nested dicts are values, not objects changed in place. `_build_nested_dict` is modelled as returning the new dict, with the same outcome for every key order.
- Hub.TranslatorHub.Translators and Hub.TranslatorHub.TranslatorsMap: the `translators` and `translators_map` properties only read through to the storage. They are written as functions of the storage and carry no contract of their own.
- OldHub.TranslatorHub.GetTranslatorByLocale returns the list it would pass to the runner class. That class (`fluentogram.structure`) is not part of this model.
- StubsRunner.StubsTranslatorRunner.Trace always fails with RecursionError, because nothing assigns `separator`. The model does not follow the recursion step by step.
- Concurrency and the asynchronous hubs are not modelled: everything here is sequential.

## Findings

| source | as written | input that shows it | evidently intended | confidence | as-written member | corrected member |
|---|---|---|---|---|---|---|
| fluentogram/src/impl/runner.py:16 | `super().__init__()` resolves to `AbstractTranslatorRunner.__init__`, whose `translators` parameter is required (fluentogram/src/abc/runner.py:14), so every construction raises TypeError | `TranslatorRunner([t])` for any translator `t` | to set `translators`, `separator` and `request_line` as lines 17-19 do | not executed | SrcRunner.InitAlwaysRaises | SrcRunner.TranslatorRunner.constructor |
| fluentogram/stub_generator/generator.py:5 | imports StubGeneratorKeyConflictError, which fluentogram/exceptions.py does not define; when `fluentogram.exceptions` resolves to that module (it does unless fluentogram/exceptions/ is a regular package, and that directory's `__init__.py` is not part of this model), loading generator.py raises ImportError | any `import fluentogram.stub_generator.generator` | the exception defined in fluentogram/exceptions.py beside the others, so that the conflict check at lines 60-75 can raise it | not executed | StubGenerator.ImportAsWritten | StubGenerator.ConflictExactly |
| fluentogram/stub_generator/generator.py:79-80 | stores the `Message` records of `get_messages` as the messages; each record reaches `_generate_method_signature` as `params`, is truthy, and `sorted` of it at line 43 raises TypeError | a catalog holding only `hello = Hi` | each message's placeholder names as `params` | not executed | StubGenerator.AsWrittenOnRecords | StubGenerator.Generator.Generate |
