/** fluentogram/src/impl/runner.py: the runner of the hub in
    fluentogram/src/impl/transator_hubs/translator_hub.py.  It skips
    translators that raise KeyError, returns the first other answer even
    when that answer is None, returns None when the chain runs out, and
    resolves `obj.a.b()` by dropping the last character of "a-b-". */
module SrcRunner {
  import opened Wrappers
  import opened Text
  import opened Translators
  import opened AttribTracing

  /** `_get_translation`: a KeyError moves on, any other exception
      propagates, and any returned value, None included, is the answer. */
  function FirstAnswer(rs: seq<Reply>): (r: Result<Option<string>, Reply>)
    ensures r.Failure? ==> r.error.Raises?
  {
    if rs == [] then Success(None)
    else match rs[0]
      case Text(t) => Success(Some(t))
      case NoText => Success(None)
      case KeyError => FirstAnswer(rs[1..])
      case Raises(_) => Failure(rs[0])
  }

  /** `super().__init__()` in `__init__` calls the `__init__` of
      `AbstractTranslatorRunner` (fluentogram/src/abc/runner.py:14), which
      needs a `translators` argument and gets none. */
  datatype InitError = MissingArgument(name: string)

  /** `AbstractTranslatorRunner.__init__` called with `given` positional
      arguments: it needs at least one. */
  function AbstractInit(given: nat): (r: Result<(), InitError>)
    ensures r.Success? <==> given >= 1
  {
    if given == 0 then Failure(MissingArgument("translators")) else Success(())
  }

  /** `__init__` as written: its first statement, `super().__init__()`,
      passes no arguments on. */
  function InitAsWritten(translators: seq<Translator>, separator: string): Result<(), InitError> {
    AbstractInit(0)
  }

  class TranslatorRunner {
    const translators: seq<Translator>
    const separator: string
    var requestLine: string

    /** `__init__` as intended, with the fields of lines 17-19. */
    constructor (translators: seq<Translator>, separator: string := "-")
      ensures this.translators == translators && this.separator == separator && requestLine == ""
    {
      this.translators := translators;
      this.separator := separator;
      requestLine := "";
    }

    /** `_get_translation(key)`, with its try/continue loop. */
    method GetTranslation(key: string) returns (r: Result<Option<string>, Reply>)
      ensures r == FirstAnswer(Answers(translators, key))
    {
      ghost var rs := Answers(translators, key);
      var i := 0;
      while i < |translators|
        invariant 0 <= i <= |translators|
        invariant FirstAnswer(rs) == FirstAnswer(rs[i..])
      {
        var text := translators[i].Get(key);
        match text
        case KeyError =>
          assert rs[i..][1..] == rs[i + 1..];
          i := i + 1;
        case Text(t) =>
          return Success(Some(t));
        case NoText =>
          return Success(None);
        case Raises(_) =>
          return Failure(text);
      }
      r := Success(None);
    }

    /** `get(key)` delegates to `_get_translation`. */
    method Get(key: string) returns (r: Result<Option<string>, Reply>)
      ensures r == FirstAnswer(Answers(translators, key))
    {
      r := GetTranslation(key);
    }

    /** `__call__()`: resolves the buffer without its last character, then
        empties it unless the resolution raised. */
    method Call() returns (r: Result<Option<string>, Reply>)
      modifies this
      ensures r == FirstAnswer(Answers(translators, DropLast(old(requestLine))))
      ensures requestLine == if r.Success? then "" else old(requestLine)
    {
      r := GetTranslation(DropLast(requestLine));
      if r.Success? {
        requestLine := "";
      }
    }

    /** `__getattr__(item)`. */
    method Trace(item: string) returns (r: TranslatorRunner)
      modifies this
      ensures r == this && requestLine == old(requestLine) + item + separator
    {
      requestLine := requestLine + item + separator;
      r := this;
    }
  }

  // ---------------------------------------------------------------------
  // Properties
  // ---------------------------------------------------------------------

  /** No call of `__init__` as written returns. */
  lemma InitAlwaysRaises(translators: seq<Translator>, separator: string)
    ensures InitAsWritten(translators, separator) == Failure(MissingArgument("translators"))
  {
  }

  /** The answer is the first one that is not a KeyError, and only KeyErrors
      come before it. */
  lemma {:induction false} FirstAnswerSkipsKeyErrors(rs: seq<Reply>, i: nat)
    requires i < |rs| && !rs[i].KeyError? && forall j :: 0 <= j < i ==> rs[j] == KeyError
    ensures FirstAnswer(rs) == match rs[i]
      case Text(t) => Success(Some(t))
      case NoText => Success(None)
      case _ => Failure(rs[i])
  {
    if i > 0 {
      assert rs[0] == KeyError;
      assert forall j :: 0 <= j < i - 1 ==> rs[1..][j] == KeyError by {
        forall j | 0 <= j < i - 1 ensures rs[1..][j] == KeyError {
          assert rs[1..][j] == rs[j + 1];
        }
      }
      FirstAnswerSkipsKeyErrors(rs[1..], i - 1);
    }
  }

  /** A chain in which every translator raises KeyError, the empty chain
      included, gives None. */
  lemma {:induction false} FirstAnswerExhausted(rs: seq<Reply>)
    requires forall j :: 0 <= j < |rs| ==> rs[j] == KeyError
    ensures FirstAnswer(rs) == Success(None)
  {
    if rs != [] {
      assert rs[0] == KeyError;
      assert forall j :: 0 <= j < |rs[1..]| ==> rs[1..][j] == KeyError by {
        forall j | 0 <= j < |rs[1..]| ensures rs[1..][j] == KeyError {
          assert rs[1..][j] == rs[j + 1];
        }
      }
      FirstAnswerExhausted(rs[1..]);
    }
  }

  /** A None answer ends the search although a later translator has the text. */
  lemma NoneShadowsLater(t: string)
    ensures FirstAnswer([NoText, Text(t)]) == Success(None)
  {
  }
}
