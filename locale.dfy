/**
 * The Language Code Mapper: two-letter application codes to the locale tags
 * the recognition and synthesis engines take. The page keeps two literal
 * tables, one for dictation and one for speech; both are modelled.
 */
module Locale {
  import opened Text

  /** The application codes both tables know. */
  const Supported: set<string> := {"en", "ta", "te", "ml", "hi", "pa", "ur", "ar", "de", "fr", "es"}

  /** The locale every unknown code falls back to. */
  const DefaultLocale: string := "en-US"

  /** The table of `getLanguageCode` (dictation). */
  const LangCodes: map<string, string> := map[
    "en" := "en-US", "ta" := "ta-IN", "te" := "te-IN", "ml" := "ml-IN",
    "hi" := "hi-IN", "pa" := "pa-IN", "ur" := "ur-PK", "ar" := "ar-SA",
    "de" := "de-DE", "fr" := "fr-FR", "es" := "es-ES"]

  /** The table of `getSpeechLanguageCode` (read-aloud). */
  const SpeechLangCodes: map<string, string> := map[
    "en" := "en-US", "ta" := "ta-IN", "te" := "te-IN", "ml" := "ml-IN",
    "hi" := "hi-IN", "pa" := "pa-IN", "ur" := "ur-PK", "ar" := "ar-SA",
    "de" := "de-DE", "fr" := "fr-FR", "es" := "es-ES"]

  /** A locale tag shaped `xx-YY` whose language part is `code`. */
  predicate IsLocaleFor(tag: string, code: string) {
    |tag| == 5 && tag[2] == '-' && tag[..2] == code
  }

  lemma PrefixOfLocale(tag: string, code: string)
    requires IsLocaleFor(tag, code) && '-' !in code
    ensures LangPrefix(tag) == code
  {
  }

  /** `getLanguageCode(lang)`: `langCodes[lang] || 'en-US'`. */
  function LanguageCode(lang: string): (r: string)
    ensures lang in Supported ==> IsLocaleFor(r, lang)
    ensures lang !in Supported ==> r == DefaultLocale
    ensures LangPrefix(r) == lang <==> lang in Supported
  {
    var r := if lang in LangCodes then LangCodes[lang] else DefaultLocale;
    PrefixOfLocale(r, if lang in Supported then lang else "en");
    r
  }

  /** `getSpeechLanguageCode(lang)`: `speechLangCodes[lang] || 'en-US'`. */
  function SpeechLanguageCode(lang: string): (r: string)
    ensures lang in Supported ==> IsLocaleFor(r, lang)
    ensures lang !in Supported ==> r == DefaultLocale
    ensures LangPrefix(r) == lang <==> lang in Supported
  {
    var r := if lang in SpeechLangCodes then SpeechLangCodes[lang] else DefaultLocale;
    PrefixOfLocale(r, if lang in Supported then lang else "en");
    r
  }

  /** The six South-Asian codes map to their fixed locales. */
  lemma SouthAsianLocales()
    ensures LanguageCode("ta") == "ta-IN" && LanguageCode("te") == "te-IN"
    ensures LanguageCode("ml") == "ml-IN" && LanguageCode("hi") == "hi-IN"
    ensures LanguageCode("pa") == "pa-IN" && LanguageCode("ur") == "ur-PK"
  {
  }

  /** The other five codes map to their fixed locales. */
  lemma OtherLocales()
    ensures LanguageCode("en") == "en-US" && LanguageCode("ar") == "ar-SA"
    ensures LanguageCode("de") == "de-DE" && LanguageCode("fr") == "fr-FR"
    ensures LanguageCode("es") == "es-ES"
  {
  }

  /** The dictation and the speech table agree on every input. */
  lemma LanguageCodesAgree(lang: string)
    ensures LanguageCode(lang) == SpeechLanguageCode(lang)
  {
  }
}
