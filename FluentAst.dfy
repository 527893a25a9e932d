/** The part of the Project Fluent syntax tree (as produced by the
    fluent.syntax parser) that the stub generators walk.  Parsing FTL text
    is not modelled: every generator starts from a `Resource`. */
module FluentAst {
  import opened Wrappers

  /** An expression inside `{ ... }`.  `NestedPlaceable` is a placeable used
      as an expression (`{ { $x } }`).  Literals carry the text the
      generators read from them: the unescaped value of a string literal and
      the fixed-precision rendering of a number literal. */
  datatype Expression =
    | StringLiteral(value: string)
    | NumberLiteral(value: string)
    | MessageReference(id: string)
    | TermReference(id: string)
    | VariableReference(id: string)
    | FunctionReference(id: string, positional: seq<Expression>, named: seq<NamedArgument>)
    | SelectExpression(selector: Expression, variants: seq<Variant>)
    | NestedPlaceable(expression: Expression)

  /** `name: literal` inside a function call. */
  datatype NamedArgument = NamedArgument(name: string, value: Expression)

  datatype VariantKey = Identifier(name: string) | NumberKey(value: string)

  /** `[key] pattern` or, when `default`, `*[key] pattern`. */
  datatype Variant = Variant(key: VariantKey, value: Pattern, default: bool)

  datatype PatternElement = TextElement(value: string) | Placeable(expression: Expression)

  type Pattern = seq<PatternElement>

  /** Top-level entries; comments and junk are the entries no generator reads. */
  datatype Entry =
    | MessageEntry(id: string, value: Option<Pattern>)
    | TermEntry(id: string, body: Pattern)
    | Comment(content: string)
    | Junk(content: string)

  type Resource = seq<Entry>

  // Sizes used as termination measures by the generators' mutual recursion.

  function ExpressionSize(e: Expression): nat {
    match e
    case FunctionReference(_, positional, named) => 1 + ExpressionsSize(positional) + NamedSize(named)
    case SelectExpression(selector, variants) => 1 + ExpressionSize(selector) + VariantsSize(variants)
    case NestedPlaceable(inner) => 1 + ExpressionSize(inner)
    case _ => 1
  }

  function ExpressionsSize(s: seq<Expression>): nat {
    if s == [] then 0 else ExpressionSize(s[0]) + ExpressionsSize(s[1..])
  }

  function NamedSize(s: seq<NamedArgument>): nat {
    if s == [] then 0 else NamedArgumentSize(s[0]) + NamedSize(s[1..])
  }

  function NamedArgumentSize(a: NamedArgument): nat {
    1 + ExpressionSize(a.value)
  }

  function VariantsSize(s: seq<Variant>): nat {
    if s == [] then 0 else VariantSize(s[0]) + VariantsSize(s[1..])
  }

  function VariantSize(v: Variant): nat {
    1 + PatternSize(v.value)
  }

  function PatternSize(p: Pattern): nat {
    if p == [] then 0 else ElementSize(p[0]) + PatternSize(p[1..])
  }

  function ElementSize(el: PatternElement): nat {
    match el
    case TextElement(_) => 1
    case Placeable(e) => 1 + ExpressionSize(e)
  }

  /** An element's size is part of its pattern's size. */
  lemma {:induction false} ElementWithinPattern(p: Pattern, i: nat)
    requires i < |p|
    ensures ElementSize(p[i]) <= PatternSize(p)
    decreases i
  {
    if i > 0 {
      ElementWithinPattern(p[1..], i - 1);
    }
  }

  /** A variant's size is part of the size of its variant list. */
  lemma {:induction false} VariantWithinVariants(vs: seq<Variant>, i: nat)
    requires i < |vs|
    ensures VariantSize(vs[i]) <= VariantsSize(vs)
    decreases i
  {
    if i > 0 {
      VariantWithinVariants(vs[1..], i - 1);
    }
  }

  /** A positional argument's size is part of the size of the argument list. */
  lemma {:induction false} ExpressionWithinExpressions(s: seq<Expression>, i: nat)
    requires i < |s|
    ensures ExpressionSize(s[i]) <= ExpressionsSize(s)
    decreases i
  {
    if i > 0 {
      ExpressionWithinExpressions(s[1..], i - 1);
    }
  }
}
