/** fluentogram/src/impl/translator_hub.py: the oldest hub.  It keeps the
    locales map as given, and its lookup passes `storage.get` of every
    configured locale, None included, to a runner class that is not part of
    this model; the lookup therefore returns that list. */
module OldHub {
  import opened Wrappers
  import opened Dicts
  import opened Translators
  import opened LocalesMap

  /** What `for _locale in value` walks: a bare string character by character. */
  function Iterated(v: LocaleSpec): (r: seq<string>)
    ensures v.One? ==> |r| == |v.locale| && forall i :: 0 <= i < |r| ==> r[i] == [v.locale[i]]
    ensures v.Many? ==> r == v.locales
  {
    match v
    case One(s) => seq(|s|, i requires 0 <= i < |s| => [s[i]])
    case Many(ls) => ls
  }

  /** `[storage.get(l) for l in locales]`: not filtered. */
  function Lookups(locales: seq<string>, index: map<string, Translator>): (r: seq<Option<Translator>>)
    ensures |r| == |locales|
    ensures forall i :: 0 <= i < |r| ==> r[i] == if locales[i] in index then Some(index[locales[i]]) else None
  {
    seq(|locales|, i requires 0 <= i < |locales| => if locales[i] in index then Some(index[locales[i]]) else None)
  }

  class TranslatorHub {
    const localesMap: Dict<string, LocaleSpec>
    const translators: seq<Translator>
    const rootLocale: string
    const storage: map<string, Translator>

    constructor (localesMap: Dict<string, LocaleSpec>, translators: seq<Translator>, rootLocale: string)
      ensures this.localesMap == localesMap && this.translators == translators && this.rootLocale == rootLocale
      ensures storage == Index(translators)
    {
      this.localesMap := localesMap;
      this.translators := translators;
      this.rootLocale := rootLocale;
      storage := Index(translators);
    }

    /** `get_translator_by_locale(locale)`: iterating `locales_map.get(locale)`
        raises TypeError when the locale is not in the map (None is not
        iterable); otherwise every configured locale is looked up. */
    method GetTranslatorByLocale(locale: string) returns (r: Result<seq<Option<Translator>>, HubError>)
      ensures locale !in localesMap.entries ==> r == Failure(TypeError)
      ensures locale in localesMap.entries ==> r == Success(Lookups(Iterated(localesMap.entries[locale]), storage))
    {
      if locale !in localesMap.entries {
        return Failure(TypeError);
      }
      r := Success(Lookups(Iterated(localesMap.entries[locale]), storage));
    }
  }

  /** `TranslatorHub(locales_map, translators, root_locale)`. */
  method NewHub(localesMap: Dict<string, LocaleSpec>, translators: seq<Translator>, rootLocale: string := "en")
    returns (r: Result<TranslatorHub, HubError>)
    ensures r.Failure? <==> rootLocale !in Index(translators)
    ensures r.Failure? ==> r.error == NotImplementedRootLocale(rootLocale)
    ensures r.Success? ==> fresh(r.value) && r.value.localesMap == localesMap && r.value.rootLocale == rootLocale
  {
    if rootLocale !in Index(translators) {
      return Failure(NotImplementedRootLocale(rootLocale));
    }
    var hub := new TranslatorHub(localesMap, translators, rootLocale);
    r := Success(hub);
  }

  /** `{"en": "en"}` asks for the locales "e" and "n", so with translators
      for "en" only the chain is [None, None]. */
  lemma BareStringSplitsIntoCharacters(index: map<string, Translator>, code: string)
    requires |code| == 2 && [code[0]] !in index && [code[1]] !in index
    ensures Lookups(Iterated(One(code)), index) == [None, None]
  {
  }
}
