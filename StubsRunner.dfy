/** fluentogram/src/impl/stubs_translator_runner.py: an attribute tracer whose
    call returns the traced key and the keyword arguments instead of a text.
    Nothing in the class or in `AttribTracer` assigns `separator`, so an
    attribute access on it recurses until RecursionError (see AttribTracing). */
module StubsRunner {
  import opened Wrappers
  import opened Text
  import opened AttribTracing

  type Kwargs = map<string, string>

  class StubsTranslatorRunner {
    var requestLine: string
    /** Set to {} here and never assigned again. */
    const kwargs: Kwargs

    constructor ()
      ensures requestLine == "" && kwargs == map[]
    {
      requestLine := "";
      kwargs := map[];
    }

    /** `__getattr__(item)`, inherited: it always raises RecursionError and
        leaves the buffer as it was. */
    method Trace(item: string) returns (r: Result<StubsTranslatorRunner, TraceError>)
      modifies this
      ensures r == Failure(RecursionError) && requestLine == old(requestLine)
    {
      r := Failure(RecursionError);
    }

    /** `__call__(**kwargs)`: the buffer without its last character and the
        arguments; the buffer is empty afterwards. */
    method Call(args: Kwargs) returns (key: string, out: Kwargs)
      modifies this
      ensures key == DropLast(old(requestLine)) && out == args
      ensures requestLine == ""
    {
      var line := requestLine;
      requestLine := "";
      key := DropLast(line);
      out := args;
      requestLine := "";
    }
  }
}
