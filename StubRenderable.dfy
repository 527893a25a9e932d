/** The text templates of fluentogram/stub_generator/renderable.py, the
    module the current stub generator renders with.

    Every `{{ value }}` is HTML-escaped (the Jinja2 environment is created
    with autoescape), a filter's result included.  Jinja2 drops one newline
    at the very end of a template source, so the class template
    "\nclass {{ class_name | title }}:\n" yields "\nclass Name:"; the
    runner template ends in four spaces and loses nothing. */
module StubRenderable {
  import opened Wrappers
  import opened Text
  import opened StubClasses
  import opened Jinja

  predicate EndsWithNewline(s: string) {
    |s| > 0 && s[|s| - 1] == '\n'
  }

  // ---------------------------------------------------------------------
  // Constructors
  // ---------------------------------------------------------------------

  /** The `args` of a method: "*, " before the comma-joined names, or "" when there are none. */
  function FormatArgs(args: seq<string>): (r: string)
    ensures args == [] <==> r == ""
  {
    if args == [] then "" else "*, " + Join(args, ", ")
  }

  /** The argument names can be read back from the formatted list. */
  lemma FormatArgsRoundTrip(args: seq<string>)
    requires args != [] && forall i :: 0 <= i < |args| ==> ',' !in args[i]
    ensures |FormatArgs(args)| >= 3 && FormatArgs(args)[..3] == "*, "
    ensures Split(FormatArgs(args)[3..], ", ") == args
  {
    assert FormatArgs(args)[3..] == Join(args, ", ");
    SplitJoin(args, ", ");
  }

  /** `Method(method_name, translation, args)`. */
  function NewMethod(name: string, translation: string, args: seq<string>): (m: Method)
    ensures m.methodName == name && m.translation == translation
    ensures m.args == "" <==> args == []
  {
    Method(name, translation, FormatArgs(args))
  }

  /** `InternalMethod`: a method that is always called `__call__`. */
  function NewInternalMethod(translation: string, args: seq<string>): (m: Method)
    ensures m.methodName == "__call__" && m.translation == translation
    ensures m.args == "" <==> args == []
  {
    NewMethod("__call__", translation, args)
  }

  // ---------------------------------------------------------------------
  // Rendered text
  // ---------------------------------------------------------------------

  function MethodPattern(m: Method): seq<Piece> {
    [Lit("    @staticmethod\n    def "), Val(m.methodName), Lit("("), Val(m.args),
     Lit(") -> Literal[\"\"\""), Val(m.translation), Lit("\"\"\"]: ...")]
  }

  /** `Method.render()`: the template, then the "\n" of `RenderAble.render`. */
  function MethodText(m: Method): string {
    Fill(MethodPattern(m)) + "\n"
  }

  /** What `Class.render` appends per method: its text and one more "\n". */
  function MethodLine(m: Method): string {
    MethodText(m) + "\n"
  }

  /** `ClassRef.render()`: the variable and its title-cased type, then "\n". */
  function ClassRefText(r: ClassRef): string {
    Fill([Lit("    "), Val(r.varName), Lit(": "), Val(Title(r.varFullName))]) + "\n"
  }

  /** The class template (its trailing newline dropped) plus the "\n" that `Class.render` adds. */
  function ClassHeader(name: string): string {
    Fill([Lit("\nclass "), Val(Title(name)), Lit(":")]) + "\n"
  }

  /** `Class.render` after its header: references, a blank line only when
      there are references, then the methods. */
  function BodyText(header: string, b: Body): string {
    header + Layout(ClassRefText, MethodLine, b)
  }

  /** `Class.render`. */
  function ClassText(b: Body): string {
    BodyText(ClassHeader(b.className), b)
  }

  /** The runner template after the name. */
  const RunnerTail := ":\n    def get(self, path: str, **kwargs) -> str: ...\n    "

  /** The runner template (its name is not title-cased) plus the "\n" of `Class.render`. */
  function RunnerHeader(name: string): string {
    Fill([Lit("\nclass "), Val(name), Lit(RunnerTail)]) + "\n"
  }

  /** `Runner.render`: its own class part, then every knot in list order. */
  function RunnerText(head: Body, knots: seq<Body>): string {
    BodyText(RunnerHeader(head.className), head) + Lines(ClassText, knots)
  }

  // ---------------------------------------------------------------------
  // The render methods
  // ---------------------------------------------------------------------

  method RenderBody(header: string, b: Body) returns (text: string)
    ensures text == BodyText(header, b)
  {
    var layout := RenderLayout(ClassRefText, MethodLine, b);
    text := header + layout;
  }

  /** `Class.render` of a class in the given state. */
  method RenderKnot(b: Body) returns (text: string)
    ensures text == ClassText(b)
  {
    text := RenderBody(ClassHeader(b.className), b);
  }

  /** `Class.render`. */
  method RenderClass(c: Class) returns (text: string)
    ensures text == ClassText(c.Contents())
  {
    text := RenderKnot(c.Contents());
  }

  /** `Runner.render`. */
  method RenderRunner(r: Runner) returns (text: string)
    ensures text == RunnerText(r.Head(), r.knots)
  {
    text := RenderBody(RunnerHeader(r.className), r.Head());
    text := AppendLines(ClassText, text, r.knots);
  }

  // ---------------------------------------------------------------------
  // Properties
  // ---------------------------------------------------------------------

  lemma EndsWithNewlineAppend(a: string, b: string)
    requires EndsWithNewline(b) || (b == [] && EndsWithNewline(a))
    ensures EndsWithNewline(a + b)
  {
  }

  lemma BodyEndsWithNewline(header: string, b: Body)
    requires EndsWithNewline(header)
    ensures EndsWithNewline(BodyText(header, b))
  {
    var refs := Lines(ClassRefText, b.classRefs);
    var front := refs + (if b.classRefs != [] then "\n" else "");
    if b.methods != [] {
      var last := b.methods[|b.methods| - 1];
      var init := b.methods[..|b.methods| - 1];
      assert Lines(MethodLine, b.methods) == Lines(MethodLine, init) + MethodLine(last);
      EndsWithNewlineAppend(Lines(MethodLine, init), MethodLine(last));
      EndsWithNewlineAppend(front, Lines(MethodLine, b.methods));
    } else if b.classRefs != [] {
      EndsWithNewlineAppend(refs, "\n");
      EndsWithNewlineAppend(front, "");
      assert front + "" == front;
    } else {
      assert Layout(ClassRefText, MethodLine, b) == "";
    }
    EndsWithNewlineAppend(header, Layout(ClassRefText, MethodLine, b));
  }

  /** Every class rendering ends with "\n". */
  lemma ClassEndsWithNewline(b: Body)
    ensures EndsWithNewline(ClassText(b))
  {
    BodyEndsWithNewline(ClassHeader(b.className), b);
  }

  /** The whole runner rendering ends with "\n". */
  lemma RunnerEndsWithNewline(head: Body, knots: seq<Body>)
    ensures EndsWithNewline(RunnerText(head, knots))
  {
    var front := BodyText(RunnerHeader(head.className), head);
    BodyEndsWithNewline(RunnerHeader(head.className), head);
    if knots == [] {
      EndsWithNewlineAppend(front, "");
    } else {
      var last := knots[|knots| - 1];
      var init := knots[..|knots| - 1];
      ClassEndsWithNewline(last);
      assert Lines(ClassText, knots) == Lines(ClassText, init) + ClassText(last);
      EndsWithNewlineAppend(Lines(ClassText, init), ClassText(last));
      EndsWithNewlineAppend(front, Lines(ClassText, knots));
    }
  }

  /** `add_method` appends exactly the method's text and a blank line to the class's rendering. */
  lemma AddMethodAppends(b: Body, m: Method)
    ensures ClassText(b.(methods := b.methods + [m])) == ClassText(b) + MethodText(m) + "\n"
  {
    LayoutAddMethod(ClassRefText, MethodLine, b, m);
    AppendAssoc(ClassHeader(b.className), Layout(ClassRefText, MethodLine, b), MethodLine(m));
    AppendAssoc(ClassText(b), MethodText(m), "\n");
  }

  /** `add_class_ref` puts the reference after the earlier ones and before the
      blank line that separates references from methods. */
  lemma AddClassRefInserts(b: Body, r: ClassRef)
    ensures ClassText(b.(classRefs := b.classRefs + [r]))
         == ClassHeader(b.className)
            + (Lines(ClassRefText, b.classRefs) + ClassRefText(r) + "\n" + Lines(MethodLine, b.methods))
  {
    LayoutAddClassRef(ClassRefText, MethodLine, b, r);
  }

  /** Knots render in list order: a knot added later is rendered after everything else. */
  lemma AddKnotAppends(head: Body, knots: seq<Body>, k: Body)
    ensures RunnerText(head, knots + [k]) == RunnerText(head, knots) + ClassText(k)
  {
    LinesSnoc(ClassText, knots, k);
    AppendAssoc(BodyText(RunnerHeader(head.className), head), Lines(ClassText, knots), ClassText(k));
  }

  /** A class with nothing in it is its header line alone. */
  lemma EmptyClass(name: string)
    ensures ClassText(Body(name, [], [])) == "\nclass " + Escape(Title(name)) + ":\n"
  {
    Fill3(Lit("\nclass "), Val(Title(name)), Lit(":"));
  }

  lemma {:induction false} TitleKeepsPlain(s: string, previousCased: bool)
    requires Plain(s)
    ensures Plain(TitleFrom(s, previousCased))
    decreases |s|
  {
    if s != [] {
      TitleKeepsPlain(s[1..], IsCased(s[0]));
      var t := TitleFrom(s, previousCased);
      assert t[0] == s[0] || IsCased(t[0]);
      forall i | 1 <= i < |s| ensures !IsSpecial(t[i]) {
        assert t[i] == TitleFrom(s[1..], IsCased(s[0]))[i - 1];
      }
    }
  }

  /** A variable reference defaults its type to the title-cased variable name. */
  lemma ClassRefDefault(name: string)
    requires Plain(name)
    ensures ClassRefText(NewClassRef(name, None)) == "    " + name + ": " + Title(name) + "\n"
  {
    EscapePlain(name);
    TitleKeepsPlain(name, false);
    EscapePlain(Title(name));
    Fill4(Lit("    "), Val(name), Lit(": "), Val(Title(name)));
  }

  /** The runner keeps its name as given: "TranslatorRunner" is not title-cased. */
  lemma RunnerNameVerbatim(name: string)
    requires Plain(name)
    ensures RunnerHeader(name) == "\nclass " + name + RunnerTail + "\n"
  {
    EscapePlain(name);
    Fill3(Lit("\nclass "), Val(name), Lit(RunnerTail));
  }

  lemma EscapeApostropheGreater(before: string, after: string)
    requires Plain(before) && Plain(after)
    ensures Escape(before + "'" + after + ">") == before + "&#39;" + after + "&gt;"
  {
    EscapePlain(before);
    EscapePlain(after);
    EscapeAppend(before + "'" + after, ">");
    EscapeAppend(before + "'", after);
    EscapeAppend(before, "'");
  }

  /** Autoescape turns an apostrophe in a translation into "&#39;" and a
      greater-than sign into "&gt;". */
  lemma EscapedTranslation(name: string, before: string, after: string)
    requires Plain(name) && Plain(before) && Plain(after)
    ensures MethodText(NewMethod(name, before + "'" + after + ">", []))
         == "    @staticmethod\n    def " + name + "(" + ") -> Literal[\"\"\""
            + (before + "&#39;" + after + "&gt;") + "\"\"\"]: ..." + "\n"
  {
    var t := before + "'" + after + ">";
    var m := NewMethod(name, t, []);
    assert m == Method(name, t, "");
    EscapePlain(name);
    EscapeApostropheGreater(before, after);
    Fill7(Lit("    @staticmethod\n    def "), Val(name), Lit("("), Val(""),
          Lit(") -> Literal[\"\"\""), Val(t), Lit("\"\"\"]: ..."));
  }
}
