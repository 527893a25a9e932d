/** fluentogram/typing_generator/renderable_items.py: the legacy render objects.

    `Method` and `InternalMethod` have the same template and the same
    argument formatting as fluentogram/stub_generator/renderable.py, so
    their values and texts are the ones of `StubRenderable`.  A `Var` has the
    shape of a `ClassRef` (a name and a full name that falls back to the
    name) but renders without a filter.  `Knot` and `Runner` hold variables
    and methods only; a `Runner` is a `Knot` with the runner template.
    Every `{{ value }}` is HTML-escaped, and Jinja2 drops the newline that
    ends the knot template. */
module LegacyRenderable {
  import opened Wrappers
  import opened Text
  import opened Jinja
  import opened StubClasses
  import opened StubRenderable

  /** `Var.render()`: "    name: full", then the "\n" of `RenderAble.render`. */
  function VarText(v: ClassRef): string {
    Fill([Lit("    "), Val(v.varName), Lit(": "), Val(v.varFullName)]) + "\n"
  }

  /** The knot template "\nclass {{ class_name }}:\n" without its last
      newline, plus the "\n" that `Knot.render` adds. */
  function KnotHeader(name: string): string {
    Fill([Lit("\nclass "), Val(name), Lit(":")]) + "\n"
  }

  /** `Knot.render` (or `Runner.render`): the header, every variable, a
      blank line only when there are variables, then every method followed
      by one more "\n". */
  function KnotText(b: Body, runner: bool): string {
    (if runner then RunnerHeader(b.className) else KnotHeader(b.className)) + Layout(VarText, MethodLine, b)
  }

  /** `Knot(class_name)` and `Runner(name)`. */
  class Knot {
    var className: string
    var variables: seq<ClassRef>
    var methods: seq<Method>
    /** Whether this is a `Runner`, which renders with the runner template. */
    const runner: bool

    function Contents(): Body
      reads this
    {
      Body(className, variables, methods)
    }

    constructor (className: string)
      ensures Contents() == Body(className, [], []) && !runner
    {
      this.className := className;
      variables := [];
      methods := [];
      runner := false;
    }

    /** `Runner(name)`. */
    constructor Runner(name: string := "TranslatorRunner")
      ensures Contents() == Body(name, [], []) && runner
    {
      className := name;
      variables := [];
      methods := [];
      runner := true;
    }

    /** `add_var`. */
    method AddVar(v: ClassRef)
      modifies this
      ensures variables == old(variables) + [v]
      ensures className == old(className) && methods == old(methods)
    {
      variables := variables + [v];
    }

    /** `add_method`. */
    method AddMethod(m: Method)
      modifies this
      ensures methods == old(methods) + [m]
      ensures className == old(className) && variables == old(variables)
    {
      methods := methods + [m];
    }

    /** `render`, with its two loops. */
    method Render() returns (text: string)
      ensures text == KnotText(Contents(), runner)
    {
      text := if runner then RunnerHeader(className) else KnotHeader(className);
      var layout := RenderLayout(VarText, MethodLine, Contents());
      text := text + layout;
    }
  }

  // ---------------------------------------------------------------------
  // Properties
  // ---------------------------------------------------------------------

  /** Every knot and runner rendering ends with "\n". */
  lemma KnotEndsWithNewline(b: Body, runner: bool)
    ensures EndsWithNewline(KnotText(b, runner))
  {
    var header := if runner then RunnerHeader(b.className) else KnotHeader(b.className);
    var vars := Lines(VarText, b.classRefs);
    var front := vars + (if b.classRefs != [] then "\n" else "");
    if b.methods != [] {
      var last := b.methods[|b.methods| - 1];
      var init := b.methods[..|b.methods| - 1];
      assert Lines(MethodLine, b.methods) == Lines(MethodLine, init) + MethodLine(last);
      EndsWithNewlineAppend(Lines(MethodLine, init), MethodLine(last));
      EndsWithNewlineAppend(front, Lines(MethodLine, b.methods));
    } else if b.classRefs != [] {
      EndsWithNewlineAppend(vars, "\n");
      EndsWithNewlineAppend(front, "");
      assert front + "" == front;
    } else {
      assert Layout(VarText, MethodLine, b) == "";
    }
    EndsWithNewlineAppend(header, Layout(VarText, MethodLine, b));
  }

  /** `add_method` appends exactly the method's text and a blank line. */
  lemma KnotAddMethod(b: Body, runner: bool, m: Method)
    ensures KnotText(b.(methods := b.methods + [m]), runner) == KnotText(b, runner) + MethodText(m) + "\n"
  {
    var header := if runner then RunnerHeader(b.className) else KnotHeader(b.className);
    LayoutAddMethod(VarText, MethodLine, b, m);
    AppendAssoc(header, Layout(VarText, MethodLine, b), MethodLine(m));
    AppendAssoc(KnotText(b, runner), MethodText(m), "\n");
  }

  /** `add_var` puts the variable after the earlier ones and before the
      blank line that ends the variables. */
  lemma KnotAddVar(b: Body, runner: bool, v: ClassRef)
    ensures KnotText(b.(classRefs := b.classRefs + [v]), runner)
         == (if runner then RunnerHeader(b.className) else KnotHeader(b.className))
            + (Lines(VarText, b.classRefs) + VarText(v) + "\n" + Lines(MethodLine, b.methods))
  {
    LayoutAddClassRef(VarText, MethodLine, b, v);
  }

  /** `Var(name)` and `Var(name, "")` render the name as the type, unfiltered. */
  lemma VarDefault(name: string, full: Option<string>)
    requires Plain(name) && (full == None || full == Some(""))
    ensures VarText(NewClassRef(name, full)) == "    " + name + ": " + name + "\n"
  {
    EscapePlain(name);
    Fill4(Lit("    "), Val(name), Lit(": "), Val(name));
  }

  /** A knot is not title-cased: its header shows the name as given. */
  lemma KnotNameVerbatim(name: string)
    requires Plain(name)
    ensures KnotText(Body(name, [], []), false) == "\nclass " + name + ":\n"
  {
    EscapePlain(name);
    Fill3(Lit("\nclass "), Val(name), Lit(":"));
  }

  /** In a knot's method, an apostrophe of the translation renders as
      "&#39;" and a greater-than sign as "&gt;". */
  lemma KnotEscapesTranslation(b: Body, runner: bool, name: string, before: string, after: string)
    requires Plain(name) && Plain(before) && Plain(after)
    ensures KnotText(b.(methods := b.methods + [NewMethod(name, before + "'" + after + ">", [])]), runner)
         == KnotText(b, runner)
            + ("    @staticmethod\n    def " + name + "(" + ") -> Literal[\"\"\""
               + (before + "&#39;" + after + "&gt;") + "\"\"\"]: ..." + "\n")
            + "\n"
  {
    var m := NewMethod(name, before + "'" + after + ">", []);
    KnotAddMethod(b, runner, m);
    EscapedTranslation(name, before, after);
  }
}
