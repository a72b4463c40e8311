/**
 * The i18next language detector: the saved choice wins, else the device locale's
 * primary subtag, else English; and the cache that writes the saved choice.
 */
module Language {
  import opened Wrappers

  /** The AsyncStorage key `detect` reads and `cacheUserLanguage` writes. */
  const LanguageKey := "user-language"
  const FallbackLanguage := "en"
  /** The translation resources bundled with the app. */
  const BundledLanguages: seq<string> := ["en", "zh", "es", "fr"]

  /** `locale.split('-')[0]`: the text before the first `-`, or all of it. */
  function PrimarySubtag(locale: string): (r: string)
    ensures '-' !in r
    ensures |r| <= |locale| && r == locale[..|r|]
    ensures r == locale || locale[|r|] == '-'
  {
    if locale == [] || locale[0] == '-' then []
    else [locale[0]] + PrimarySubtag(locale[1..])
  }

  /** `detect`: a non-empty saved language verbatim; without one, the locale's primary
      subtag; when reading storage fails, the fallback. */
  function Detect(storage: map<string, string>, readOk: bool, locale: string): (r: string)
    ensures !readOk ==> r == FallbackLanguage
    ensures readOk && LanguageKey in storage && storage[LanguageKey] != "" ==> r == storage[LanguageKey]
    ensures readOk && (LanguageKey !in storage || storage[LanguageKey] == "") ==>
      r == PrimarySubtag(locale)
  {
    if !readOk then FallbackLanguage
    else if LanguageKey in storage && storage[LanguageKey] != "" then storage[LanguageKey]
    else PrimarySubtag(locale)
  }

  /** The device's AsyncStorage. */
  class KeyValueStore {
    var items: map<string, string>

    constructor (items: map<string, string>)
      ensures this.items == items
    {
      this.items := items;
    }
  }

  /** `cacheUserLanguage`: writes the choice under the key `detect` reads; a failed write
      is logged and changes nothing. */
  method CacheUserLanguage(storage: KeyValueStore, language: string, writeOk: bool)
    modifies storage
    ensures storage.items == if writeOk then old(storage.items)[LanguageKey := language] else old(storage.items)
    ensures writeOk && language != "" ==>
      forall locale :: Detect(storage.items, true, locale) == language
  {
    if writeOk {
      storage.items := storage.items[LanguageKey := language];
    }
  }

  /** The bundle i18next serves for a detected language: the first of the language itself,
      its primary subtag and the fallback that is bundled. */
  function ResolvedLanguage(language: string): (r: string)
    ensures r in BundledLanguages
    ensures language in BundledLanguages ==> r == language
    ensures language !in BundledLanguages && PrimarySubtag(language) in BundledLanguages ==>
      r == PrimarySubtag(language)
    ensures language !in BundledLanguages && PrimarySubtag(language) !in BundledLanguages ==>
      r == FallbackLanguage
  {
    if language in BundledLanguages then language
    else if PrimarySubtag(language) in BundledLanguages then PrimarySubtag(language)
    else FallbackLanguage
  }

  /** The fallback is bundled, and a storage failure resolves to it whatever is stored and
      whatever the locale. */
  lemma FallbackIsBundled(storage: map<string, string>, locale: string)
    ensures FallbackLanguage in BundledLanguages
    ensures ResolvedLanguage(Detect(storage, false, locale)) == FallbackLanguage
  {
  }
}
