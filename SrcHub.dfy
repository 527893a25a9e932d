/** fluentogram/src/impl/transator_hubs/translator_hub.py: the hub of the
    `fluentogram.src` package.  Its inline normalisation, index and chains
    are those of `LocalesMap`; it raises NotImplementedRootLocaleTranslator
    and hands out fluentogram/src/impl/runner.py runners. */
module SrcHub {
  import opened Wrappers
  import opened Dicts
  import opened Translators
  import opened LocalesMap
  import SrcRunner

  /** Why a lookup fails as written: the hub's own error, or the runner's
      `__init__` (the TypeError of a missing argument). */
  datatype LookupError = HubFailure(hub: HubError) | RunnerFailure(init: SrcRunner.InitError)

  class TranslatorHub {
    const localesMap: Dict<string, seq<string>>
    const translators: seq<Translator>
    const rootLocale: string
    const separator: string
    const storage: map<string, Translator>
    const translatorsMap: Dict<string, seq<Translator>>

    /** The fields `__init__` assigns: `tuple([lang])` for a bare string,
        any other value kept, the keys unchanged. */
    constructor (localesMap: Dict<string, LocaleSpec>, translators: seq<Translator>, rootLocale: string, separator: string)
      ensures this.localesMap == NormalizeLocalesMap(localesMap)
      ensures this.translators == translators && this.rootLocale == rootLocale && this.separator == separator
      ensures storage == Index(translators)
      ensures translatorsMap == ParseMap(NormalizeLocalesMap(localesMap), Index(translators))
    {
      this.localesMap := NormalizeLocalesMap(localesMap);
      this.translators := translators;
      this.rootLocale := rootLocale;
      this.separator := separator;
      storage := Index(translators);
      translatorsMap := ParseMap(NormalizeLocalesMap(localesMap), Index(translators));
    }

    /** `get_translator_by_locale(locale)`: a new runner each call, built
        with the corrected runner `__init__` (`LookupAsWritten` is the code
        as written). */
    method GetTranslatorByLocale(locale: string) returns (r: Result<SrcRunner.TranslatorRunner, HubError>)
      ensures r.Success? <==> Select(translatorsMap, locale, rootLocale).Success?
      ensures r.Failure? ==> r.error == Select(translatorsMap, locale, rootLocale).error
      ensures r.Success? ==> fresh(r.value) && r.value.translators == Select(translatorsMap, locale, rootLocale).value
                             && r.value.separator == separator && r.value.requestLine == ""
    {
      var chain := Select(translatorsMap, locale, rootLocale);
      if chain.Failure? {
        return Failure(chain.error);
      }
      var runner := new SrcRunner.TranslatorRunner(chain.value, separator);
      r := Success(runner);
    }

    /** `get_translator_by_locale(locale)` as written: the chain is selected,
        then `TranslatorRunner(...)` runs the `__init__` of
        fluentogram/src/impl/runner.py as written. */
    function LookupAsWritten(locale: string): Result<(), LookupError> {
      var chain := Select(translatorsMap, locale, rootLocale);
      if chain.Failure? then Failure(HubFailure(chain.error))
      else match SrcRunner.InitAsWritten(chain.value, separator)
           case Failure(e) => Failure(RunnerFailure(e))
           case Success(_) => Success(())
    }

    /** As written, no lookup hands out a runner: one whose chain is
        selected raises the TypeError of the runner's `__init__`, and the
        others fail as `GetTranslatorByLocale` does. */
    lemma LookupAlwaysRaises(locale: string)
      ensures var chain := Select(translatorsMap, locale, rootLocale);
              LookupAsWritten(locale) ==
                if chain.Success? then Failure(RunnerFailure(SrcRunner.MissingArgument("translators")))
                else Failure(HubFailure(chain.error))
    {
      var chain := Select(translatorsMap, locale, rootLocale);
      if chain.Success? {
        SrcRunner.InitAlwaysRaises(chain.value, separator);
      }
    }
  }

  /** `TranslatorHub(...)`: NotImplementedRootLocaleTranslator when no
      translator has the root locale. */
  method NewHub(localesMap: Dict<string, LocaleSpec>, translators: seq<Translator>, rootLocale: string := "en", separator: string := "-")
    returns (r: Result<TranslatorHub, HubError>)
    ensures r.Failure? <==> rootLocale !in Index(translators)
    ensures r.Failure? ==> r.error == NotImplementedRootLocale(rootLocale)
    ensures r.Success? ==> fresh(r.value) && r.value.rootLocale == rootLocale && r.value.separator == separator
                           && r.value.translatorsMap == ParseMap(NormalizeLocalesMap(localesMap), Index(translators))
  {
    if rootLocale !in Index(translators) {
      return Failure(NotImplementedRootLocale(rootLocale));
    }
    var hub := new TranslatorHub(localesMap, translators, rootLocale, separator);
    r := Success(hub);
  }
}
