/** The text templates of fluentogram/stub_generator/templates.py: the
    variant of the current renderer that types every argument as
    `PossibleValue`, camel-cases class names and trims each class's
    trailing whitespace.  The containers are the ones of `StubClasses`. */
module StubTemplates {
  import opened Wrappers
  import opened Text
  import opened Jinja
  import opened StubClasses

  predicate EndsWithNewline(s: string) {
    |s| > 0 && s[|s| - 1] == '\n'
  }

  // ---------------------------------------------------------------------
  // The camelcase filter
  // ---------------------------------------------------------------------

  /** `value.replace("_", "-").split("-")`. */
  function Words(value: string): seq<string> {
    Split(ReplaceChar(value, '_', '-'), "-")
  }

  /** The `camelcase` filter: every word capitalized, joined with nothing between. */
  function CamelCase(value: string): string {
    Lines(Capitalize, Words(value))
  }

  lemma CapitalizeKeeps(w: string, c: char)
    requires c !in w && !IsCased(c)
    ensures c !in Capitalize(w)
  {
    if w != [] {
      var r := Capitalize(w);
      assert r[0] == UpperChar(w[0]);
      forall i | 1 <= i < |r| ensures r[i] != c {
        assert r[i] == Lower(w[1..])[i - 1];
      }
    }
  }

  lemma {:induction false} LinesCapitalizeKeeps(ws: seq<string>, c: char)
    requires !IsCased(c) && forall w :: w in ws ==> c !in w
    ensures c !in Lines(Capitalize, ws)
    decreases |ws|
  {
    if ws != [] {
      var init := ws[..|ws| - 1];
      assert forall w :: w in init ==> w in ws;
      LinesCapitalizeKeeps(init, c);
      CapitalizeKeeps(ws[|ws| - 1], c);
    }
  }

  /** No "-" or "_" survives the filter. */
  lemma CamelCaseDropsSeparators(value: string)
    ensures '-' !in CamelCase(value) && '_' !in CamelCase(value)
  {
    var replaced := ReplaceChar(value, '_', '-');
    SplitNoSep(replaced, '-');
    assert '_' !in replaced;
    SplitFromChars(replaced, "-", "");
    LinesCapitalizeKeeps(Words(value), '-');
    LinesCapitalizeKeeps(Words(value), '_');
  }

  lemma WordsTwo(p: string, q: string)
    requires '_' !in p && '-' !in p && '_' !in q && '-' !in q
    ensures Words(p + "_" + q) == [p, q]
  {
    ReplaceOne(p, q, '_', '-');
    assert Join([p, q], "-") == p + "-" + q;
    SplitJoin([p, q], "-");
  }

  lemma CapitalizeTwo(p: string, q: string)
    ensures Lines(Capitalize, [p, q]) == Capitalize(p) + Capitalize(q)
  {
    LinesTwo(Capitalize, p, q);
  }

  /** Two words joined by "_" become the two words capitalized. */
  lemma CamelCaseTwoWords(p: string, q: string)
    requires '_' !in p && '-' !in p && '_' !in q && '-' !in q
    ensures CamelCase(p + "_" + q) == Capitalize(p) + Capitalize(q)
  {
    WordsTwo(p, q);
    CapitalizeTwo(p, q);
  }

  lemma ExampleWords(value: string)
    requires value == "first_unknown"
    ensures value == "first" + "_" + "unknown"
    ensures '_' !in "first" && '-' !in "first" && '_' !in "unknown" && '-' !in "unknown"
  {
  }

  lemma CapitalizeFirst(w: string)
    requires w == "first"
    ensures Capitalize(w) == "First"
  {
    assert w == ['f'] + "irst";
    CapitalizeLowerWord('f', "irst");
    assert UpperChar('f') == 'F';
    assert ['F'] + "irst" == "First";
  }

  lemma CapitalizeUnknown(w: string)
    requires w == "unknown"
    ensures Capitalize(w) == "Unknown"
  {
    assert w == ['u'] + "nknown";
    CapitalizeLowerWord('u', "nknown");
    assert UpperChar('u') == 'U';
    assert ['U'] + "nknown" == "Unknown";
  }

  /** "first_unknown" becomes "FirstUnknown". */
  lemma CamelCaseExample(value: string)
    requires value == "first_unknown"
    ensures CamelCase(value) == "FirstUnknown"
  {
    var first, unknown := "first", "unknown";
    ExampleWords(value);
    CamelCaseTwoWords(first, unknown);
    CapitalizeFirst(first);
    CapitalizeUnknown(unknown);
    assert "First" + "Unknown" == "FirstUnknown";
  }

  // ---------------------------------------------------------------------
  // Constructors
  // ---------------------------------------------------------------------

  /** Each argument typed as `PossibleValue`. */
  function Typed(args: seq<string>): (r: seq<string>)
    ensures |r| == |args| && forall i :: 0 <= i < |args| ==> r[i] == args[i] + ": PossibleValue"
  {
    if args == [] then [] else [args[0] + ": PossibleValue"] + Typed(args[1..])
  }

  /** The `args` of a method: "*, a: PossibleValue, b: PossibleValue", or "" with no arguments. */
  function FormatArgs(args: seq<string>): (r: string)
    ensures args == [] <==> r == ""
  {
    if args == [] then "" else "*, " + Join(Typed(args), ", ")
  }

  /** The typed arguments can be read back from the formatted list. */
  lemma FormatArgsRoundTrip(args: seq<string>)
    requires args != [] && forall i :: 0 <= i < |args| ==> ',' !in args[i]
    ensures |FormatArgs(args)| >= 3 && FormatArgs(args)[..3] == "*, "
    ensures Split(FormatArgs(args)[3..], ", ") == Typed(args)
  {
    var typed := Typed(args);
    forall i | 0 <= i < |typed| ensures ',' !in typed[i] {
      assert typed[i] == args[i] + ": PossibleValue";
    }
    assert FormatArgs(args)[3..] == Join(typed, ", ");
    SplitJoin(typed, ", ");
  }

  /** `Method(method_name, result_text, args)`. */
  function NewMethod(name: string, resultText: string, args: seq<string>): (m: Method)
    ensures m.methodName == name && m.translation == resultText
    ensures m.args == "" <==> args == []
  {
    Method(name, resultText, FormatArgs(args))
  }

  /** `InternalMethod`: a method that is always called `__call__`. */
  function NewInternalMethod(resultText: string, args: seq<string>): (m: Method)
    ensures m.methodName == "__call__" && m.translation == resultText
    ensures m.args == "" <==> args == []
  {
    NewMethod("__call__", resultText, args)
  }

  // ---------------------------------------------------------------------
  // Rendered text
  // ---------------------------------------------------------------------

  function MethodPattern(m: Method): seq<Piece> {
    [Lit("    @staticmethod\n    def "), Val(m.methodName), Lit("("), Val(m.args),
     Lit(") -> Literal[\"\"\""), Val(m.translation), Lit("\"\"\"]: ...")]
  }

  /** `Method.render()`: the template and exactly one "\n". */
  function MethodText(m: Method): string {
    Fill(MethodPattern(m)) + "\n"
  }

  /** `ClassRef.render()`: the variable, its camel-cased type and exactly one "\n". */
  function ClassRefText(r: ClassRef): string {
    Fill([Lit("    "), Val(r.varName), Lit(": "), Val(CamelCase(r.varFullName))]) + "\n"
  }

  /** The class template plus the "\n" that `Class.render` adds. */
  function ClassHeader(name: string): string {
    Fill([Lit("\nclass "), Val(CamelCase(name)), Lit(":")]) + "\n"
  }

  /** The text `Class.render` builds before trimming it: header, references,
      a blank line only when there are references, then the methods. */
  function BodyText(header: string, b: Body): string {
    header + Layout(ClassRefText, MethodText, b)
  }

  /** `text.rstrip() + "\n"`. */
  function Trimmed(text: string): string {
    RStripSpace(text) + "\n"
  }

  /** `Class.render`. */
  function ClassText(b: Body): string {
    Trimmed(BodyText(ClassHeader(b.className), b))
  }

  /** The runner template before the name: the imports and the `PossibleValue` alias. */
  const Prelude := "from decimal import Decimal\nfrom typing import Literal\n\n"
    + "from fluent_compiler.types import FluentType\nfrom typing_extensions import TypeAlias\n\n"
    + "PossibleValue: TypeAlias = str | int | float | Decimal | bool | FluentType\n\nclass "

  /** The runner template after the name. */
  const RunnerTail := ":" + "\n    def get(self, path: str, **kwargs: PossibleValue) -> str: ..."

  /** The runner template plus the "\n" of `Class.render`; the name is not camel-cased. */
  function RunnerHeader(name: string): string {
    Fill([Lit(Prelude), Val(name), Lit(RunnerTail)]) + "\n"
  }

  /** `Runner.render`: its own trimmed class part, then every knot in list order. */
  function RunnerText(head: Body, knots: seq<Body>): string {
    Trimmed(BodyText(RunnerHeader(head.className), head)) + Lines(ClassText, knots)
  }

  // ---------------------------------------------------------------------
  // The render methods
  // ---------------------------------------------------------------------

  method RenderBody(header: string, b: Body) returns (text: string)
    ensures text == Trimmed(BodyText(header, b))
  {
    var layout := RenderLayout(ClassRefText, MethodText, b);
    text := Trimmed(header + layout);
  }

  /** `Class.render` of a class in the given state. */
  method RenderKnot(b: Body) returns (text: string)
    ensures text == ClassText(b)
  {
    text := RenderBody(ClassHeader(b.className), b);
  }

  /** `Class.render`. */
  method RenderClass(c: Class) returns (text: string)
    ensures text == ClassText(c.Contents())
  {
    text := RenderKnot(c.Contents());
  }

  /** `Runner.render`. */
  method RenderRunner(r: Runner) returns (text: string)
    ensures text == RunnerText(r.Head(), r.knots)
  {
    text := RenderBody(RunnerHeader(r.className), r.Head());
    text := AppendLines(ClassText, text, r.knots);
  }

  // ---------------------------------------------------------------------
  // Properties
  // ---------------------------------------------------------------------

  /** Trimming keeps everything up to the last character that is not
      whitespace and adds exactly one "\n". */
  lemma TrimmedShape(text: string, k: nat)
    requires k < |text| && !IsSpace(text[k])
    ensures var t := Trimmed(text);
      k + 2 <= |t| && t[..|t| - 1] == text[..|t| - 1] && t[|t| - 1] == '\n' && !IsSpace(t[|t| - 2])
  {
  }

  /** The second character of a class header is the "c" of "class". */
  lemma ClassHeaderStart(name: string)
    ensures var h := Fill([Lit("\nclass "), Val(name), Lit(":")]) + "\n"; |h| > 1 && h[1] == 'c'
  {
    var escaped := Escape(name);
    Fill3(Lit("\nclass "), Val(name), Lit(":"));
    IndexFront("\nclass ", escaped, 1);
    IndexFront("\nclass " + escaped, ":", 1);
    IndexFront("\nclass " + escaped + ":", "\n", 1);
  }

  /** Trimming a text whose second character is kept leaves one "\n" at the end. */
  lemma TrimmedAfterHeader(header: string, layout: string)
    requires |header| > 1 && header[1] == 'c'
    ensures var t := Trimmed(header + layout);
      |t| >= 2 && t[|t| - 1] == '\n' && !IsSpace(t[|t| - 2])
  {
    IndexFront(header, layout, 1);
    TrimmedShape(header + layout, 1);
  }

  /** Every class rendering ends with a single "\n" and no other whitespace before it. */
  lemma ClassEndsWithOneNewline(b: Body)
    ensures var t := ClassText(b);
      |t| >= 2 && t[|t| - 1] == '\n' && !IsSpace(t[|t| - 2])
  {
    var header := ClassHeader(b.className);
    var layout := Layout(ClassRefText, MethodText, b);
    ClassHeaderStart(CamelCase(b.className));
    assert |header| > 1 && header[1] == 'c';
    TrimmedAfterHeader(header, layout);
    assert ClassText(b) == Trimmed(header + layout);
  }

  /** Trimming never reaches back past a character that is not whitespace. */
  lemma TrimmedKeepsPrefix(p: string, rest: string, k: nat)
    requires k < |rest| && !IsSpace(rest[k])
    ensures |Trimmed(p + rest)| > |p| && Trimmed(p + rest)[..|p|] == p
  {
    assert (p + rest)[|p| + k] == rest[k];
    var r := RStripSpace(p + rest);
    assert r[..|p|] == (p + rest)[..|p|];
    assert (r + "\n")[..|p|] == r[..|p|];
  }

  /** A class part whose template opens with literal text keeps that text in front. */
  lemma HeaderPrefix(lead: string, name: string, tail: string, b: Body, after: string)
    requires |tail| > 0 && !IsSpace(tail[0])
    ensures var t := Trimmed(BodyText(Fill([Lit(lead), Val(name), Lit(tail)]) + "\n", b)) + after;
      |t| > |lead| && t[..|lead|] == lead
  {
    var escaped := Escape(name);
    var layout := Layout(ClassRefText, MethodText, b);
    Fill3(Lit(lead), Val(name), Lit(tail));
    var rest := escaped + tail + "\n" + layout;
    AppendAssoc(lead, escaped, tail);
    AppendAssoc(lead, escaped + tail, "\n");
    AppendAssoc(lead, escaped + tail + "\n", layout);
    assert BodyText(Fill([Lit(lead), Val(name), Lit(tail)]) + "\n", b) == lead + rest;
    IndexFront(escaped + tail + "\n", layout, |escaped|);
    IndexFront(escaped + tail, "\n", |escaped|);
    TrimmedKeepsPrefix(lead, rest, |escaped|);
    TakeFront(Trimmed(lead + rest), after);
  }

  /** The runner rendering starts with the imports and the `PossibleValue` alias. */
  lemma RunnerStartsWithPrelude(head: Body, knots: seq<Body>)
    ensures |RunnerText(head, knots)| > |Prelude|
    ensures RunnerText(head, knots)[..|Prelude|] == Prelude
  {
    assert RunnerTail[0] == ':';
    HeaderPrefix(Prelude, head.className, RunnerTail, head, Lines(ClassText, knots));
  }

  /** Adding a method to a class: what was rendered stays, the method follows,
      and its own newline is the single one that ends the class. */
  lemma AddMethodAppends(b: Body, m: Method)
    ensures ClassText(b.(methods := b.methods + [m]))
         == BodyText(ClassHeader(b.className), b) + Fill(MethodPattern(m)) + "\n"
  {
    var header := ClassHeader(b.className);
    var layout := Layout(ClassRefText, MethodText, b);
    var pattern := Fill(MethodPattern(m));
    LayoutAddMethod(ClassRefText, MethodText, b, m);
    AppendAssoc(header, layout, pattern + "\n");
    MethodEndsWithDot(m);
    TrimmedAfterDot(header + layout, pattern);
  }

  /** Trimming text whose last piece ends with "." and a newline changes nothing. */
  lemma TrimmedAfterDot(front: string, pattern: string)
    requires |pattern| > 0 && pattern[|pattern| - 1] == '.'
    ensures Trimmed(front + (pattern + "\n")) == front + pattern + "\n"
  {
    AppendAssoc(front, pattern, "\n");
    DropLastAppend(front, pattern);
    RStripSpaceKeeps(front + pattern, "\n");
  }

  /** A method's template ends with the "." of its "...". */
  lemma MethodEndsWithDot(m: Method)
    ensures var pattern := Fill(MethodPattern(m)); |pattern| > 0 && pattern[|pattern| - 1] == '.'
  {
    var ending := "\"\"\"]: ...";
    Fill7(Lit("    @staticmethod\n    def "), Val(m.methodName), Lit("("), Val(m.args),
          Lit(") -> Literal[\"\"\""), Val(m.translation), Lit(ending));
    var front := Show(Lit("    @staticmethod\n    def ")) + Show(Val(m.methodName)) + Show(Lit("(")) + Show(Val(m.args))
                 + Show(Lit(") -> Literal[\"\"\"")) + Show(Val(m.translation));
    DropLastAppend(front, Show(Lit(ending)));
    assert ending[|ending| - 1] == '.';
  }

  /** Knots render in list order: a knot added later is rendered after everything else. */
  lemma AddKnotAppends(head: Body, knots: seq<Body>, k: Body)
    ensures RunnerText(head, knots + [k]) == RunnerText(head, knots) + ClassText(k)
  {
    LinesSnoc(ClassText, knots, k);
    AppendAssoc(Trimmed(BodyText(RunnerHeader(head.className), head)), Lines(ClassText, knots), ClassText(k));
  }

  /** Two arguments render as "*, a: PossibleValue, b: PossibleValue". */
  lemma TypedTwoArgs(a: string, b: string)
    ensures FormatArgs([a, b]) == "*, " + (a + ": PossibleValue") + ", " + (b + ": PossibleValue")
  {
    var typed := Typed([a, b]);
    assert typed == [a + ": PossibleValue", b + ": PossibleValue"];
    assert [a, b][1..] == [b];
    assert typed[1..] == [b + ": PossibleValue"];
    assert Join(typed, ", ") == typed[0] + ", " + typed[1];
  }
}
