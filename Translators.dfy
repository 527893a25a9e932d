/** The translators the runners consult.  Formatting a message is done by
    fluent_compiler, which is not part of this model: a translator is an
    object that answers each key with a `Reply`. */
module Translators {

  /** What `translator.get(key, **kwargs)` does: return a text, return None,
      raise KeyError, or raise another error (a formatting error). */
  datatype Reply = Text(text: string) | NoText | KeyError | Raises(error: string)

  /** A single-locale translator.  `unknown` is the engine's answer for a key
      it has no message for: fluentogram/translator.py turns fluent_compiler's
      KeyError into None, fluentogram/src/impl/translator.py lets it escape. */
  class Translator {
    const locale: string
    const unknown: Reply
    var replies: map<string, Reply>

    constructor (locale: string, replies: map<string, Reply>, unknown: Reply := NoText)
      ensures this.locale == locale && this.replies == replies && this.unknown == unknown
    {
      this.locale := locale;
      this.replies := replies;
      this.unknown := unknown;
    }

    /** `get(key, **kwargs)`. */
    function Get(key: string): Reply
      reads this
    {
      if key in replies then replies[key] else unknown
    }

    /** `update_translation(key, value)`: the translator object is changed in
        place, so every runner holding it sees the new message. */
    method Update(key: string, reply: Reply)
      modifies this
      ensures replies == old(replies)[key := reply]
      ensures Get(key) == reply
    {
      replies := replies[key := reply];
    }
  }

  /** The answers of a chain of translators to one key, in chain order. */
  function Answers(ts: seq<Translator>, key: string): (r: seq<Reply>)
    reads ts
    ensures |r| == |ts|
    ensures forall i :: 0 <= i < |ts| ==> r[i] == ts[i].Get(key)
  {
    if ts == [] then [] else [ts[0].Get(key)] + Answers(ts[1..], key)
  }
}
