/** fluentogram/abc/translator_hub.py `normalize_locales_map`, and the
    locale → translators index that fluentogram/impl/translator_hub.py and
    fluentogram/src/impl/transator_hubs/translator_hub.py build from it. */
module LocalesMap {
  import opened Wrappers
  import opened Dicts
  import opened Translators

  /** A value of the locales map: a bare locale string, or an iterable of locales. */
  datatype LocaleSpec = One(locale: string) | Many(locales: seq<string>)

  /** The errors a hub raises. */
  datatype HubError =
    | RootTranslatorNotFound(rootLocale: string)
    | NotImplementedRootLocale(rootLocale: string)
    | KeyErrorRaised(key: string)
    | TypeError

  /** One value of `normalize_locales_map`: a str becomes `(value,)`, any
      other value is kept. */
  function Locales(v: LocaleSpec): (r: seq<string>)
    ensures v.One? ==> r == [v.locale]
    ensures v.Many? ==> r == v.locales
  {
    match v
    case One(l) => [l]
    case Many(ls) => ls
  }

  /** `normalize_locales_map`: a new map with the same keys, in the same order. */
  function NormalizeLocalesMap(m: Dict<string, LocaleSpec>): (r: Dict<string, seq<string>>)
    ensures r.keys == m.keys && r.entries.Keys == m.entries.Keys
    ensures forall k :: k in m.entries ==> r.entries[k] == Locales(m.entries[k])
  {
    Dict(m.keys, map k | k in m.entries :: Locales(m.entries[k]))
  }

  /** `dict(zip([t.locale for t in translators], translators))`: keyed by
      locale, and a later translator with the same locale replaces an earlier one. */
  function Index(ts: seq<Translator>): (r: map<string, Translator>)
    ensures r.Keys == set i | 0 <= i < |ts| :: ts[i].locale
    ensures forall l :: l in r ==> r[l].locale == l && r[l] in ts
  {
    if ts == [] then map[]
    else
      var front := ts[..|ts| - 1];
      var last := ts[|ts| - 1];
      assert forall i :: 0 <= i < |front| ==> front[i] == ts[i];
      Index(front)[last.locale := last]
  }

  /** The translators of the configured locales, in configured order,
      without the locales that have no translator. */
  function Chain(locales: seq<string>, index: map<string, Translator>): (r: seq<Translator>)
    ensures |r| <= |locales|
    ensures forall i :: 0 <= i < |r| ==> r[i] in index.Values
  {
    if locales == [] then []
    else
      var rest := Chain(locales[1..], index);
      if locales[0] in index then [index[locales[0]]] + rest else rest
  }

  /** `_locales_map_parser`: every language gets the chain of its locales. */
  function ParseMap(m: Dict<string, seq<string>>, index: map<string, Translator>): (r: Dict<string, seq<Translator>>)
    ensures r.keys == m.keys && r.entries.Keys == m.entries.Keys
  {
    Dict(m.keys, map k | k in m.entries :: Chain(m.entries[k], index))
  }

  /** `translators_map.get(locale) or translators_map[root_locale]`: the
      locale's chain unless it is missing or empty, then the root's chain,
      and KeyError when the root is not a language of the map. */
  function Select(tm: Dict<string, seq<Translator>>, locale: string, root: string): (r: Result<seq<Translator>, HubError>)
    ensures locale in tm.entries && tm.entries[locale] != [] ==> r == Success(tm.entries[locale])
    ensures r.Failure? <==> (locale !in tm.entries || tm.entries[locale] == []) && root !in tm.entries
  {
    if locale in tm.entries && tm.entries[locale] != [] then Success(tm.entries[locale])
    else if root in tm.entries then Success(tm.entries[root])
    else Failure(KeyErrorRaised(root))
  }

  // ---------------------------------------------------------------------
  // Properties
  // ---------------------------------------------------------------------

  /** Normalising a map that has no bare strings gives it back. */
  lemma NormalizeKeepsIterables(m: Dict<string, LocaleSpec>)
    requires forall k :: k in m.entries ==> m.entries[k].Many?
    ensures NormalizeLocalesMap(m) == Dict(m.keys, map k | k in m.entries :: m.entries[k].locales)
  {
  }

  /** The index holds, for each locale, the last translator with that locale. */
  lemma {:induction false} IndexLastWins(ts: seq<Translator>, i: nat)
    requires i < |ts| && forall j :: i < j < |ts| ==> ts[j].locale != ts[i].locale
    ensures ts[i].locale in Index(ts) && Index(ts)[ts[i].locale] == ts[i]
  {
    if i < |ts| - 1 {
      var front := ts[..|ts| - 1];
      assert front[i] == ts[i];
      IndexLastWins(front, i);
    }
  }

  /** Chains of concatenated locale lists concatenate. */
  lemma {:induction false} ChainAppend(a: seq<string>, b: seq<string>, index: map<string, Translator>)
    ensures Chain(a + b, index) == Chain(a, index) + Chain(b, index)
  {
    if a != [] {
      assert (a + b)[0] == a[0];
      assert (a + b)[1..] == a[1..] + b;
      ChainAppend(a[1..], b, index);
      if a[0] in index {
        assert Chain(a + b, index) == [index[a[0]]] + (Chain(a[1..], index) + Chain(b, index));
      }
    } else {
      assert a + b == b;
    }
  }

  /** A chain keeps every configured locale that has a translator, in order. */
  lemma {:induction false} ChainAllKnown(locales: seq<string>, index: map<string, Translator>)
    requires forall i :: 0 <= i < |locales| ==> locales[i] in index
    ensures |Chain(locales, index)| == |locales|
    ensures forall i :: 0 <= i < |locales| ==> Chain(locales, index)[i] == index[locales[i]]
  {
    if locales != [] {
      assert forall i :: 0 <= i < |locales[1..]| ==> locales[1..][i] in index by {
        forall i | 0 <= i < |locales[1..]| ensures locales[1..][i] in index {
          assert locales[1..][i] == locales[i + 1];
        }
      }
      ChainAllKnown(locales[1..], index);
    }
  }

  /** A chain is empty exactly when none of its locales has a translator. */
  lemma {:induction false} ChainEmpty(locales: seq<string>, index: map<string, Translator>)
    ensures Chain(locales, index) == [] <==> forall i :: 0 <= i < |locales| ==> locales[i] !in index
  {
    if locales != [] {
      ChainEmpty(locales[1..], index);
      if forall i :: 0 <= i < |locales| ==> locales[i] !in index {
        assert forall i :: 0 <= i < |locales[1..]| ==> locales[1..][i] !in index by {
          forall i | 0 <= i < |locales[1..]| ensures locales[1..][i] !in index {
            assert locales[1..][i] == locales[i + 1];
          }
        }
      }
      if locales[0] !in index && forall i :: 0 <= i < |locales[1..]| ==> locales[1..][i] !in index {
        forall i | 0 <= i < |locales| ensures locales[i] !in index {
          if i > 0 { assert locales[i] == locales[1..][i - 1]; }
        }
      }
    }
  }

  /** The fallback case of `get_translator_by_locale`: a language whose
      locales all lack a translator gets the root's chain. */
  lemma FallbackToRoot(m: Dict<string, seq<string>>, index: map<string, Translator>, locale: string, root: string)
    requires locale in m.entries && root in m.entries
    requires forall i :: 0 <= i < |m.entries[locale]| ==> m.entries[locale][i] !in index
    ensures Select(ParseMap(m, index), locale, root) == Success(Chain(m.entries[root], index))
  {
    ChainEmpty(m.entries[locale], index);
  }

  /** `{"en": "en", "ru": ("ru", "en")}` with only an "en" translator: "ru"
      gets the chain [en]. */
  lemma RuFallsToEn(en: Translator, ru: string, enName: string)
    requires en.locale == enName && ru != enName
    ensures Chain(Locales(Many([ru, enName])), Index([en])) == [en]
  {
    var index := Index([en]);
    assert index == map[enName := en] by {
      assert [en][..0] == [];
    }
    assert [ru, enName][1..] == [enName];
    assert [enName][1..] == [];
  }
}
