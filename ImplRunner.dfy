/** fluentogram/impl/runner.py: the runner of fluentogram/impl/translator_hub.py.
    It has the same search as fluentogram/runner.py, a `request_line` that
    starts empty and that nothing in the class changes, and no attribute
    tracing of its own. */
module ImplRunner {
  import opened Wrappers
  import opened Translators
  import opened Runner

  class TranslatorRunner {
    const translators: seq<Translator>
    const separator: string
    /** No method of this class assigns it. */
    const requestLine: string

    constructor (translators: seq<Translator>, separator: string := "-")
      ensures this.translators == translators && this.separator == separator && requestLine == ""
    {
      this.translators := translators;
      this.separator := separator;
      requestLine := "";
    }

    /** `_get_translation(key)`: the first text wins and the translators after
        it are not asked; an exhausted chain raises KeyNotFoundError. */
    method GetTranslation(key: string) returns (r: Result<string, RunError>)
      ensures r == FirstText(Answers(translators, key), key)
    {
      ghost var rs := Answers(translators, key);
      for i := 0 to |translators|
        invariant FirstText(rs, key) == FirstText(rs[i..], key)
      {
        var text := translators[i].Get(key);
        if text.Text? {
          return Success(text.text);
        } else if !text.NoText? {
          return Failure(Propagated(text));
        }
        assert rs[i..][1..] == rs[i + 1..];
      }
      assert rs[|translators|..] == [];
      r := Failure(KeyNotFound(key));
    }

    /** `get(key)` delegates to `_get_translation`. */
    method Get(key: string) returns (r: Result<string, RunError>)
      ensures r == FirstText(Answers(translators, key), key)
    {
      r := GetTranslation(key);
    }
  }
}
