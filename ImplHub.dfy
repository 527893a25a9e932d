/** fluentogram/impl/translator_hub.py: a hub that normalises its locales
    map, indexes its translators by locale and hands out a new
    fluentogram/impl/runner.py runner on every lookup. */
module ImplHub {
  import opened Wrappers
  import opened Dicts
  import opened Translators
  import opened LocalesMap
  import ImplRunner

  class TranslatorHub {
    const localesMap: Dict<string, seq<string>>
    const translators: seq<Translator>
    const rootLocale: string
    const separator: string
    const storage: map<string, Translator>
    const translatorsMap: Dict<string, seq<Translator>>

    /** The fields `__init__` assigns. */
    constructor (localesMap: Dict<string, LocaleSpec>, translators: seq<Translator>, rootLocale: string, separator: string)
      ensures this.localesMap == NormalizeLocalesMap(localesMap)
      ensures this.translators == translators && this.rootLocale == rootLocale && this.separator == separator
      ensures storage == Index(translators)
      ensures translatorsMap == ParseMap(NormalizeLocalesMap(localesMap), Index(translators))
    {
      this.localesMap := NormalizeLocalesMap(localesMap);
      this.translators := translators;
      this.rootLocale := rootLocale;
      this.separator := separator;
      storage := Index(translators);
      translatorsMap := ParseMap(NormalizeLocalesMap(localesMap), Index(translators));
    }

    /** `get_translator_by_locale(locale)`: a runner over the selected chain. */
    method GetTranslatorByLocale(locale: string) returns (r: Result<ImplRunner.TranslatorRunner, HubError>)
      ensures r.Success? <==> Select(translatorsMap, locale, rootLocale).Success?
      ensures r.Failure? ==> r.error == Select(translatorsMap, locale, rootLocale).error
      ensures r.Success? ==> fresh(r.value) && r.value.translators == Select(translatorsMap, locale, rootLocale).value
                             && r.value.separator == separator && r.value.requestLine == ""
    {
      var chain := Select(translatorsMap, locale, rootLocale);
      if chain.Failure? {
        return Failure(chain.error);
      }
      var runner := new ImplRunner.TranslatorRunner(chain.value, separator);
      r := Success(runner);
    }
  }

  /** `TranslatorHub(locales_map, translators, root_locale, separator)`:
      RootTranslatorNotFoundError when no translator has the root locale. */
  method NewHub(localesMap: Dict<string, LocaleSpec>, translators: seq<Translator>, rootLocale: string := "en", separator: string := "-")
    returns (r: Result<TranslatorHub, HubError>)
    ensures r.Failure? <==> rootLocale !in Index(translators)
    ensures r.Failure? ==> r.error == RootTranslatorNotFound(rootLocale)
    ensures r.Success? ==> fresh(r.value) && r.value.rootLocale == rootLocale && r.value.separator == separator
                           && r.value.translatorsMap == ParseMap(NormalizeLocalesMap(localesMap), Index(translators))
  {
    if rootLocale !in Index(translators) {
      return Failure(RootTranslatorNotFound(rootLocale));
    }
    var hub := new TranslatorHub(localesMap, translators, rootLocale, separator);
    r := Success(hub);
  }

  /** A language with at least one locale that has a translator is served by
      its own chain. */
  lemma OwnChainUsed(m: Dict<string, LocaleSpec>, ts: seq<Translator>, locale: string, root: string, i: nat)
    requires locale in m.entries && i < |Locales(m.entries[locale])| && Locales(m.entries[locale])[i] in Index(ts)
    ensures Select(ParseMap(NormalizeLocalesMap(m), Index(ts)), locale, root)
         == Success(Chain(Locales(m.entries[locale]), Index(ts)))
  {
    ChainEmpty(Locales(m.entries[locale]), Index(ts));
  }
}
