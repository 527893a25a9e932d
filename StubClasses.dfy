/** The render objects shared by fluentogram/stub_generator/renderable.py and
    fluentogram/stub_generator/templates.py.  Both files define the same
    `Method`, `ClassRef`, `Class` and `Runner` containers and the same
    `add_*` operations; only their text templates differ, so the containers
    are modelled once here and each file's rendering in its own module.

    A `Method` keeps its arguments already formatted (each file formats them
    differently in its constructor).  A `Runner` stores the classes handed to
    `add_knot` as `Body` values: the generator never changes a class after
    handing it over. */
module StubClasses {
  import opened Wrappers
  import opened Text

  datatype Method = Method(methodName: string, translation: string, args: string)

  datatype ClassRef = ClassRef(varName: string, varFullName: string)

  /** The state of a `Class`: its name, its class references and its methods, in order. */
  datatype Body = Body(className: string, classRefs: seq<ClassRef>, methods: seq<Method>)

  /** `ClassRef(var_name, var_full_name)`: a missing or empty full name falls
      back to the variable name (`var_full_name or var_name`). */
  function NewClassRef(varName: string, varFullName: Option<string>): (r: ClassRef)
    ensures r.varName == varName
    ensures varFullName.Some? && varFullName.value != "" ==> r.varFullName == varFullName.value
    ensures varFullName == None || varFullName == Some("") ==> r.varFullName == varName
  {
    ClassRef(varName, if varFullName.Some? && varFullName.value != "" then varFullName.value else varName)
  }

  class Class {
    var className: string
    var classRefs: seq<ClassRef>
    var methods: seq<Method>

    function Contents(): Body
      reads this
    {
      Body(className, classRefs, methods)
    }

    constructor (name: string)
      ensures Contents() == Body(name, [], [])
    {
      className := name;
      classRefs := [];
      methods := [];
    }

    /** `add_class_ref`: appends one reference and changes nothing else. */
    method AddClassRef(r: ClassRef)
      modifies this
      ensures Contents() == old(Contents()).(classRefs := old(classRefs) + [r])
    {
      classRefs := classRefs + [r];
    }

    /** `add_method`: appends one method and changes nothing else. */
    method AddMethod(m: Method)
      modifies this
      ensures Contents() == old(Contents()).(methods := old(methods) + [m])
    {
      methods := methods + [m];
    }
  }

  /** A `Class` that also collects every other class of the stub file. */
  class Runner {
    var className: string
    var classRefs: seq<ClassRef>
    var methods: seq<Method>
    var knots: seq<Body>

    /** The runner's own class part. */
    function Head(): Body
      reads this
    {
      Body(className, classRefs, methods)
    }

    constructor (knots: seq<Body>, name: string := "TranslatorRunner")
      ensures Head() == Body(name, [], []) && this.knots == knots
    {
      className := name;
      classRefs := [];
      methods := [];
      this.knots := knots;
    }

    method AddClassRef(r: ClassRef)
      modifies this
      ensures Head() == old(Head()).(classRefs := old(classRefs) + [r])
      ensures knots == old(knots)
    {
      classRefs := classRefs + [r];
    }

    method AddMethod(m: Method)
      modifies this
      ensures Head() == old(Head()).(methods := old(methods) + [m])
      ensures knots == old(knots)
    {
      methods := methods + [m];
    }

    /** `add_knot`: appends the class, as it stands, after the knots already held. */
    method AddKnot(k: Class)
      modifies this
      ensures knots == old(knots) + [k.Contents()]
      ensures Head() == old(Head())
    {
      knots := knots + [k.Contents()];
    }
  }

  // ---------------------------------------------------------------------
  // The layout both renderers give a class (`Class.render`)
  // ---------------------------------------------------------------------

  /** What `Class.render` writes after the header: every reference, a blank
      line only when there are references, then every method. */
  function Layout(refLine: ClassRef -> string, methodLine: Method -> string, b: Body): string {
    Lines(refLine, b.classRefs) + (if b.classRefs != [] then "\n" else "") + Lines(methodLine, b.methods)
  }

  /** The loops of `Class.render` after its header. */
  method RenderLayout(refLine: ClassRef -> string, methodLine: Method -> string, b: Body)
    returns (layout: string)
    ensures layout == Layout(refLine, methodLine, b)
  {
    layout := AppendLines(refLine, "", b.classRefs);
    if b.classRefs != [] {
      layout := layout + "\n";
    }
    layout := AppendLines(methodLine, layout, b.methods);
  }

  /** `add_method` appends the method's line to the layout and changes nothing before it. */
  lemma LayoutAddMethod(refLine: ClassRef -> string, methodLine: Method -> string, b: Body, m: Method)
    ensures Layout(refLine, methodLine, b.(methods := b.methods + [m]))
         == Layout(refLine, methodLine, b) + methodLine(m)
  {
    LinesSnoc(methodLine, b.methods, m);
    var front := Lines(refLine, b.classRefs) + (if b.classRefs != [] then "\n" else "");
    AppendAssoc(front, Lines(methodLine, b.methods), methodLine(m));
  }

  /** `add_class_ref` puts the reference after the earlier ones and before
      the blank line that ends the references. */
  lemma LayoutAddClassRef(refLine: ClassRef -> string, methodLine: Method -> string, b: Body, r: ClassRef)
    ensures Layout(refLine, methodLine, b.(classRefs := b.classRefs + [r]))
         == Lines(refLine, b.classRefs) + refLine(r) + "\n" + Lines(methodLine, b.methods)
  {
    LinesSnoc(refLine, b.classRefs, r);
  }
}
