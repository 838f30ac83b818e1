/**
 * Voice selection for read-aloud: a first-match chain over the engine's voice
 * catalogue with a fallback to the first voice, and the per-language rate.
 */
module Voices {
  import opened Wrappers
  import opened Text
  import Locale

  /** A catalogue entry: display name and locale tag. */
  datatype Voice = Voice(name: string, lang: string)

  /** The four searches of the chain, in the order they are tried. */
  datatype Tier = ExactLang | LangStartsWith | LangIncludes | NameIncludes

  /** Does `v` satisfy the search `t` for the locale `langCode`? */
  predicate Matches(v: Voice, t: Tier, langCode: string) {
    var prefix := LangPrefix(langCode);
    match t
    case ExactLang => v.lang == langCode
    case LangStartsWith => StartsWith(v.lang, prefix)
    case LangIncludes => Includes(v.lang, prefix)
    case NameIncludes => Includes(ToLower(v.name), prefix)
  }

  /** `voices.find(...)` for one search, as the index of the voice found. */
  function FindFirst(voices: seq<Voice>, t: Tier, langCode: string): (r: Option<nat>)
    ensures r.Some? ==> r.value < |voices| && Matches(voices[r.value], t, langCode)
    ensures r.Some? ==> forall j :: 0 <= j < r.value ==> !Matches(voices[j], t, langCode)
    ensures r.None? ==> forall j :: 0 <= j < |voices| ==> !Matches(voices[j], t, langCode)
    decreases |voices|
  {
    if voices == [] then None
    else if Matches(voices[0], t, langCode) then Some(0)
    else
      match FindFirst(voices[1..], t, langCode)
      case None => None
      case Some(i) => Some(i + 1)
  }

  /** The `find(...) || find(...) || find(...) || find(...)` chain. */
  function FindVoice(voices: seq<Voice>, langCode: string): (r: Option<nat>)
    ensures r.Some? ==> r.value < |voices| && Rank(voices[r.value], langCode) < 4
  {
    var exact := FindFirst(voices, ExactLang, langCode);
    if exact.Some? then exact
    else
      var starts := FindFirst(voices, LangStartsWith, langCode);
      if starts.Some? then starts
      else
        var includes := FindFirst(voices, LangIncludes, langCode);
        if includes.Some? then includes
        else FindFirst(voices, NameIncludes, langCode)
  }

  /** The earliest search `v` satisfies (0 to 3), or 4 when it satisfies none. */
  function Rank(v: Voice, langCode: string): nat {
    if Matches(v, ExactLang, langCode) then 0
    else if Matches(v, LangStartsWith, langCode) then 1
    else if Matches(v, LangIncludes, langCode) then 2
    else if Matches(v, NameIncludes, langCode) then 3
    else 4
  }

  /**
   * The chain finds a voice exactly when some voice satisfies some search,
   * and the voice it finds is the best one: no voice satisfies an earlier
   * search, and no earlier voice satisfies the same one.
   */
  lemma ChainPicksBest(voices: seq<Voice>, langCode: string)
    ensures FindVoice(voices, langCode).Some? <==> exists j :: 0 <= j < |voices| && Rank(voices[j], langCode) < 4
    ensures FindVoice(voices, langCode).Some? ==>
      var i := FindVoice(voices, langCode).value;
      i < |voices| && Rank(voices[i], langCode) < 4 &&
      forall j :: 0 <= j < |voices| ==>
        Rank(voices[i], langCode) < Rank(voices[j], langCode) ||
        (Rank(voices[i], langCode) == Rank(voices[j], langCode) && i <= j)
  {
  }

  /**
   * `selectVoiceAndSpeak`'s choice: the voice the chain finds; failing that
   * the first voice of the catalogue; no voice at all for an empty catalogue.
   */
  function SelectVoice(voices: seq<Voice>, langCode: string): (r: Option<Voice>)
    ensures r.None? <==> voices == []
    ensures r.Some? ==> r.value in voices
  {
    match FindVoice(voices, langCode)
    case Some(i) => Some(voices[i])
    case None => if |voices| > 0 then Some(voices[0]) else None
  }

  /** Without any matching voice the catalogue's first voice is used. */
  lemma FallbackToFirst(voices: seq<Voice>, langCode: string)
    requires voices != []
    requires forall j :: 0 <= j < |voices| ==> Rank(voices[j], langCode) == 4
    ensures SelectVoice(voices, langCode) == Some(voices[0])
  {
  }

  /** An exact `ta-IN` voice wins over an earlier `ta-XX` one. */
  lemma ExactBeatsEarlierPrefix()
    ensures SelectVoice([Voice("A", "ta-XX"), Voice("B", "ta-IN")], "ta-IN") == Some(Voice("B", "ta-IN"))
  {
  }

  /** The language prefixes read slowest. */
  const SlowLanguages: seq<string> := ["ta", "te", "ml", "hi", "pa", "ur"]

  /** The utterance rate for a language prefix, in hundredths: 0.8, 0.85 or 0.9. */
  function SpeechRate(prefix: string): (r: nat)
    ensures r == 80 <==> prefix in SlowLanguages
    ensures r == 85 <==> prefix == "ar"
    ensures r == 90 <==> prefix !in SlowLanguages && prefix != "ar"
  {
    if prefix in SlowLanguages then 80 else if prefix == "ar" then 85 else 90
  }

  /**
   * The rate for an application code, through the speech locale table: the
   * six South-Asian codes read at 0.8, Arabic at 0.85, every other code,
   * unknown ones included, at 0.9.
   */
  lemma RateForCode(lang: string)
    ensures SpeechRate(LangPrefix(Locale.SpeechLanguageCode(lang))) ==
      if lang in SlowLanguages then 80 else if lang == "ar" then 85 else 90
  {
  }
}
