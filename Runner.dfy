/** fluentogram/runner.py: the runner handed out by fluentogram/translator_hub.py.
    It asks its translators in order for the first text, and `obj.a.b()`
    resolves the key "a-b" through the `_request_line` buffer. */
module Runner {
  import opened Wrappers
  import opened Text
  import opened Translators
  import opened AttribTracing

  /** KeyNotFoundError(key), or an exception a translator raised. */
  datatype RunError = KeyNotFound(key: string) | Propagated(reply: Reply)

  /** `_get_translation`: the first answer that is not None; a translator
      that raises stops the search. */
  function FirstText(rs: seq<Reply>, key: string): (r: Result<string, RunError>)
    ensures r.Failure? && r.error.Propagated? ==> r.error.reply.KeyError? || r.error.reply.Raises?
    ensures r.Failure? && r.error.KeyNotFound? ==> r.error.key == key
  {
    if rs == [] then Failure(KeyNotFound(key))
    else match rs[0]
      case Text(t) => Success(t)
      case NoText => FirstText(rs[1..], key)
      case _ => Failure(Propagated(rs[0]))
  }

  class TranslatorRunner {
    const translators: seq<Translator>
    const separator: string
    var requestLine: string

    constructor (translators: seq<Translator>, separator: string := "-")
      ensures this.translators == translators && this.separator == separator && requestLine == ""
    {
      this.translators := translators;
      this.separator := separator;
      requestLine := "";
    }

    /** `_get_translation(key)`, with its early return. */
    method GetTranslation(key: string) returns (r: Result<string, RunError>)
      ensures r == FirstText(Answers(translators, key), key)
    {
      ghost var rs := Answers(translators, key);
      var i := 0;
      while i < |translators|
        invariant 0 <= i <= |translators|
        invariant FirstText(rs, key) == FirstText(rs[i..], key)
      {
        var text := translators[i].Get(key);
        if text.Text? {
          return Success(text.text);
        } else if !text.NoText? {
          return Failure(Propagated(text));
        }
        assert rs[i..][1..] == rs[i + 1..];
        i := i + 1;
      }
      r := Failure(KeyNotFound(key));
    }

    /** `get(key)`: delegates to `_get_translation` and leaves the buffer alone. */
    method Get(key: string) returns (r: Result<string, RunError>)
      ensures r == FirstText(Answers(translators, key), key)
    {
      r := GetTranslation(key);
    }

    /** `__getattr__(item)`. */
    method Trace(item: string) returns (r: TranslatorRunner)
      modifies this
      ensures r == this && requestLine == old(requestLine) + item + separator
    {
      requestLine := requestLine + item + separator;
      r := this;
    }

    /** `__call__()`: resolves the buffer without its trailing separator
        characters, and empties the buffer only when that resolution returns. */
    method Call() returns (r: Result<string, RunError>)
      modifies this
      ensures r == FirstText(Answers(translators, RStrip(old(requestLine), separator)), RStrip(old(requestLine), separator))
      ensures requestLine == if r.Success? then "" else old(requestLine)
    {
      r := GetTranslation(RStrip(requestLine, separator));
      if r.Success? {
        requestLine := "";
      }
    }
  }

  // ---------------------------------------------------------------------
  // Properties
  // ---------------------------------------------------------------------

  /** The text found is the first text, and every earlier translator had none. */
  lemma {:induction false} FirstTextFound(rs: seq<Reply>, key: string, t: string)
    ensures FirstText(rs, key) == Success(t)
        <==> exists i :: 0 <= i < |rs| && rs[i] == Text(t) && forall j :: 0 <= j < i ==> rs[j] == NoText
  {
    if rs != [] {
      FirstTextFound(rs[1..], key, t);
      if exists i :: 0 <= i < |rs[1..]| && rs[1..][i] == Text(t) && forall j :: 0 <= j < i ==> rs[1..][j] == NoText {
        var i :| 0 <= i < |rs[1..]| && rs[1..][i] == Text(t) && forall j :: 0 <= j < i ==> rs[1..][j] == NoText;
        if rs[0] == NoText {
          assert rs[i + 1] == Text(t);
          assert forall j :: 0 <= j < i + 1 ==> rs[j] == NoText by {
            forall j | 0 <= j < i + 1 ensures rs[j] == NoText {
              if j > 0 { assert rs[j] == rs[1..][j - 1]; }
            }
          }
        }
      }
      if exists i :: 0 <= i < |rs| && rs[i] == Text(t) && forall j :: 0 <= j < i ==> rs[j] == NoText {
        var i :| 0 <= i < |rs| && rs[i] == Text(t) && forall j :: 0 <= j < i ==> rs[j] == NoText;
        if i > 0 {
          assert rs[1..][i - 1] == Text(t);
          assert forall j :: 0 <= j < i - 1 ==> rs[1..][j] == NoText by {
            forall j | 0 <= j < i - 1 ensures rs[1..][j] == NoText {
              assert rs[1..][j] == rs[j + 1];
            }
          }
        }
      }
    }
  }

  /** KeyNotFoundError is raised exactly when every translator returned None,
      the empty chain included. */
  lemma {:induction false} FirstTextNotFound(rs: seq<Reply>, key: string)
    ensures FirstText(rs, key) == Failure(KeyNotFound(key)) <==> forall i :: 0 <= i < |rs| ==> rs[i] == NoText
  {
    if rs != [] {
      FirstTextNotFound(rs[1..], key);
      if forall i :: 0 <= i < |rs| ==> rs[i] == NoText {
        assert forall i :: 0 <= i < |rs[1..]| ==> rs[1..][i] == NoText by {
          forall i | 0 <= i < |rs[1..]| ensures rs[1..][i] == NoText {
            assert rs[1..][i] == rs[i + 1];
          }
        }
      }
      if rs[0] == NoText && forall i :: 0 <= i < |rs[1..]| ==> rs[1..][i] == NoText {
        forall i | 0 <= i < |rs| ensures rs[i] == NoText {
          if i > 0 { assert rs[i] == rs[1..][i - 1]; }
        }
      }
    }
  }

  /** Once a translator answers or raises, the translators after it are not
      consulted. */
  lemma {:induction false} FirstTextIgnoresLater(rs: seq<Reply>, later: seq<Reply>, key: string)
    requires FirstText(rs, key) != Failure(KeyNotFound(key))
    ensures FirstText(rs + later, key) == FirstText(rs, key)
  {
    assert rs != [];
    assert (rs + later)[0] == rs[0];
    if rs[0] == NoText {
      assert (rs + later)[1..] == rs[1..] + later;
      FirstTextIgnoresLater(rs[1..], later, key);
    }
  }

  /** `runner.a.b()` asks for "a-b": the traced buffer loses exactly its
      trailing separator when the last name does not end in a separator
      character. */
  lemma TracedKey(items: seq<string>, sep: string)
    requires items != [] && sep != [] && Join(items, sep) != "" && Join(items, sep)[|Join(items, sep)| - 1] !in sep
    ensures RStrip(TracedLine(items, sep), sep) == Join(items, sep)
  {
    TracedLineJoin(items, sep);
    RStripTail(Join(items, sep), sep, sep);
  }

  lemma RStripTail(s: string, tail: string, chars: string)
    requires s != "" && s[|s| - 1] !in chars && forall i :: 0 <= i < |tail| ==> tail[i] in chars
    ensures RStrip(s + tail, chars) == s
  {
    var r := RStrip(s + tail, chars);
    assert (s + tail)[|s| - 1] == s[|s| - 1];
    assert forall i :: |s| <= i < |s + tail| ==> (s + tail)[i] == tail[i - |s|];
    assert r == (s + tail)[..|s|];
  }
}
