/** fluentogram/translator_hub.py: the hub of the top-level package.  It
    keeps translators and the locales map in a storage object and hands out
    a new fluentogram/runner.py runner on every lookup.  The default storage
    class, MemoryStorage, is not part of this model: `Storage` below keeps
    what it is given and answers from the index and chains of `LocalesMap`. */
module Hub {
  import opened Wrappers
  import opened Dicts
  import opened Translators
  import opened LocalesMap
  import Runner

  /** The calls the hub makes on its storage, in order. */
  datatype StorageCall = AddedTranslators(ts: seq<Translator>) | SetLocales(m: Dict<string, LocaleSpec>)

  class Storage {
    var translators: seq<Translator>
    var localesMap: Dict<string, LocaleSpec>
    /** Every call the storage received. */
    var log: seq<StorageCall>

    constructor ()
      ensures translators == [] && localesMap == Dict([], map[]) && log == []
    {
      translators := [];
      localesMap := Dict([], map[]);
      log := [];
    }

    /** `add_translators(translators)`. */
    method AddTranslators(ts: seq<Translator>)
      modifies this
      ensures translators == old(translators) + ts && localesMap == old(localesMap)
      ensures log == old(log) + [AddedTranslators(ts)]
    {
      translators := translators + ts;
      log := log + [AddedTranslators(ts)];
    }

    /** `set_locales_map(locales_map)`. */
    method SetLocalesMap(m: Dict<string, LocaleSpec>)
      modifies this
      ensures localesMap == m && translators == old(translators)
      ensures log == old(log) + [SetLocales(m)]
    {
      localesMap := m;
      log := log + [SetLocales(m)];
    }

    /** `update_translation(locale, key, value)`: the stored translator of
        the locale is updated in place; without one nothing changes. */
    method UpdateTranslation(locale: string, key: string, text: string)
      modifies if locale in Index(translators) then {Index(translators)[locale]} else {}
      ensures locale in Index(translators) ==>
        Index(translators)[locale].replies == old(Index(translators)[locale].replies)[key := Text(text)]
    {
      var index := Index(translators);
      if locale in index {
        index[locale].Update(key, Text(text));
      }
    }

    /** `has_translator(locale)`. */
    predicate HasTranslator(locale: string)
      reads this
    {
      locale in Index(translators)
    }

    /** `get_translators_for_language(language)`. */
    function TranslatorsFor(language: string): seq<Translator>
      reads this
    {
      if language in localesMap.entries then Chain(Locales(localesMap.entries[language]), Index(translators)) else []
    }
  }

  class TranslatorHub {
    const rootLocale: string
    const separator: string
    const storage: Storage

    constructor (rootLocale: string, separator: string, storage: Storage)
      ensures this.rootLocale == rootLocale && this.separator == separator && this.storage == storage
    {
      this.rootLocale := rootLocale;
      this.separator := separator;
      this.storage := storage;
    }

    /** `get_translator_by_locale(locale)`: the locale's translators when
        there are any, the root locale's otherwise, in a new runner that
        carries the hub's separator. */
    method GetTranslatorByLocale(locale: string) returns (runner: Runner.TranslatorRunner)
      ensures fresh(runner) && runner.separator == separator && runner.requestLine == ""
      ensures storage.TranslatorsFor(locale) != [] ==> runner.translators == storage.TranslatorsFor(locale)
      ensures storage.TranslatorsFor(locale) == [] ==> runner.translators == storage.TranslatorsFor(rootLocale)
    {
      var translators := storage.TranslatorsFor(locale);
      if translators == [] {
        translators := storage.TranslatorsFor(rootLocale);
      }
      runner := new Runner.TranslatorRunner(translators, separator);
    }

    /** The `translators` property. */
    function Translators(): seq<Translator>
      reads this, storage
    {
      storage.translators
    }

    /** The `translators_map` property. */
    function TranslatorsMap(): Dict<string, seq<Translator>>
      reads this, storage
    {
      ParseMap(NormalizeLocalesMap(storage.localesMap), Index(storage.translators))
    }
  }

  /** `TranslatorHub(locales_map, translators, root_locale, separator, storage)`:
      the translators go into the storage before the map, and
      RootTranslatorNotFoundError follows when the storage has no translator
      for the root locale.  `used` is the storage the hub holds. */
  method NewHub(localesMap: Dict<string, LocaleSpec>, translators: seq<Translator>, rootLocale: string := "en",
                separator: string := "-", storage: Option<Storage> := None)
    returns (r: Result<TranslatorHub, HubError>, ghost used: Storage)
    modifies if storage.Some? then {storage.value} else {}
    ensures storage.Some? ==> used == storage.value
    ensures storage.None? ==> fresh(used)
    ensures used.log == (if storage.Some? then old(storage.value.log) else []) + [AddedTranslators(translators), SetLocales(localesMap)]
    ensures used.translators == (if storage.Some? then old(storage.value.translators) else []) + translators
    ensures used.localesMap == localesMap
    ensures r.Failure? <==> !used.HasTranslator(rootLocale)
    ensures r.Failure? ==> r.error == RootTranslatorNotFound(rootLocale)
    ensures r.Success? ==> fresh(r.value) && r.value.storage == used && r.value.rootLocale == rootLocale
                           && r.value.separator == separator
  {
    var st: Storage;
    if storage.Some? {
      st := storage.value;
    } else {
      st := new Storage();
    }
    used := st;
    st.AddTranslators(translators);
    st.SetLocalesMap(localesMap);
    if !st.HasTranslator(rootLocale) {
      return Failure(RootTranslatorNotFound(rootLocale)), used;
    }
    var hub := new TranslatorHub(rootLocale, separator, st);
    r := Success(hub);
  }

  /** A runner the hub handed out shares its translator objects with the
      storage: after `storage.update_translation` on the locale of the
      runner's first translator, the runner answers the key with the new
      text. */
  method UpdateIsVisible(hub: TranslatorHub, locale: string, key: string, text: string)
    returns (r: Result<string, Runner.RunError>)
    requires hub.storage.TranslatorsFor(locale) != []
    modifies hub.storage.TranslatorsFor(locale)[0]
    ensures r == Success(text)
  {
    var runner := hub.GetTranslatorByLocale(locale);
    var first := runner.translators[0];
    var index := Index(hub.storage.translators);
    assert first in index.Values;
    var l :| l in index && index[l] == first;
    assert index[first.locale] == first;
    hub.storage.UpdateTranslation(first.locale, key, text);
    r := runner.Get(key);
    assert Answers(runner.translators, key)[0] == Text(text);
  }
}
