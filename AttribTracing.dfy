/** fluentogram/src/impl/attrib_tracer.py, whose bodies are the default
    bodies of `AbstractAttribTracer` in fluentogram/src/abc/misc.py: the
    attribute path `obj.a.b.c` is recorded as "a-b-c-" in `request_line`.

    Python calls `__getattr__` only for names the object does not have, and
    `AttribTracer` never assigns `separator`: reading `self.separator` then
    calls `__getattr__("separator")` again, without end, until Python raises
    RecursionError.  A subclass that assigns `separator` avoids this. */
module AttribTracing {
  import opened Wrappers
  import opened Text

  datatype TraceError = RecursionError

  /** The buffer after tracing `items` from an empty buffer. */
  function TracedLine(items: seq<string>, sep: string): string {
    if items == [] then "" else TracedLine(items[..|items| - 1], sep) + items[|items| - 1] + sep
  }

  class AttribTracer {
    var requestLine: string
    /** The `separator` attribute, None while nothing has assigned it. */
    var separator: Option<string>

    /** `__init__`. */
    constructor ()
      ensures requestLine == "" && separator == None
    {
      requestLine := "";
      separator := None;
    }

    /** What a subclass does when it assigns `self.separator`. */
    method SetSeparator(sep: string)
      modifies this
      ensures separator == Some(sep) && requestLine == old(requestLine)
    {
      separator := Some(sep);
    }

    /** `_get_request_line`: hands the buffer over and empties it. */
    method GetRequestLine() returns (line: string)
      modifies this
      ensures line == old(requestLine) && requestLine == ""
      ensures separator == old(separator)
    {
      line := requestLine;
      requestLine := "";
    }

    /** `__getattr__(item)`: appends `item` and the separator and returns the
        tracer itself; with no separator assigned it never returns. */
    method Trace(item: string) returns (r: Result<AttribTracer, TraceError>)
      modifies this
      ensures separator.None? ==> r == Failure(RecursionError) && requestLine == old(requestLine)
      ensures separator.Some? ==> r == Success(this) && requestLine == old(requestLine) + item + separator.value
      ensures separator == old(separator)
    {
      if separator.None? {
        return Failure(RecursionError);
      }
      requestLine := requestLine + item + separator.value;
      r := Success(this);
    }
  }

  /** Tracing one more attribute extends the buffer by that item and a separator. */
  lemma TracedLineSnoc(items: seq<string>, x: string, sep: string)
    ensures TracedLine(items + [x], sep) == TracedLine(items, sep) + x + sep
  {
    assert (items + [x])[..|items|] == items;
  }

  /** The traced buffer is the joined key followed by one separator. */
  lemma {:induction false} TracedLineJoin(items: seq<string>, sep: string)
    requires items != []
    ensures TracedLine(items, sep) == Join(items, sep) + sep
    decreases |items|
  {
    if |items| > 1 {
      var front := items[..|items| - 1];
      var x := items[|items| - 1];
      TracedLineJoin(front, sep);
      JoinSnoc(front, x, sep);
      assert front + [x] == items;
      calc {
        TracedLine(items, sep);
        TracedLine(front, sep) + x + sep;
        Join(front, sep) + sep + x + sep;
        Join(items, sep) + sep;
      }
    }
  }

  lemma {:induction false} JoinSnoc(front: seq<string>, x: string, sep: string)
    requires front != []
    ensures Join(front + [x], sep) == Join(front, sep) + sep + x
    decreases |front|
  {
    if |front| == 1 {
      assert front + [x] == [front[0], x];
      assert [front[0], x][1..] == [x];
    } else {
      assert (front + [x])[1..] == front[1..] + [x];
      JoinSnoc(front[1..], x, sep);
      AppendAssoc(front[0] + sep, Join(front[1..], sep) + sep, x);
    }
  }

  /** `obj.some.key.for.translation` leaves "some-key-for-translation-"; with
      a one-character separator, dropping the last character gives the key. */
  lemma TracedKeyOneChar(items: seq<string>, sep: string)
    requires items != [] && |sep| == 1
    ensures DropLast(TracedLine(items, sep)) == Join(items, sep)
  {
    TracedLineJoin(items, sep);
    var s := Join(items, sep) + sep;
    assert s[..|s| - 1] == Join(items, sep);
  }
}
