/**
 * The Speech Playback Controller: the guard of `speakTranslatedText` and the
 * utterance that `selectVoiceAndSpeak` builds, with the synthesis engine
 * reduced to the sequence of calls the page makes on it.
 */
module Playback {
  import opened Wrappers
  import opened Text
  import Locale
  import opened Voices
  import Translation

  /**
   * Does the text contain one of the substrings that mark the page's own
   * status texts: "Error", "Please enter" or "Translating"?
   */
  predicate IsPlaceholder(text: string) {
    Includes(text, "Error") || Includes(text, "Please enter") || Includes(text, "Translating")
  }

  datatype SpeakDecision =
    | Unsupported      // no synthesis engine: alert only
    | CancelPlayback   // already speaking: cancel, start nothing (the button toggles)
    | NothingToRead    // empty or placeholder text: alert only
    | Proceed          // cancel whatever is queued, then speak after a delay

  /**
   * `speakTranslatedText`'s guards, in their order: engine present, engine
   * speaking, then the text. The engine's `speaking` flag is an input.
   */
  function SpeakGuard(available: bool, speaking: bool, text: string): (d: SpeakDecision)
    ensures d == Unsupported <==> !available
    ensures d == CancelPlayback <==> available && speaking
    ensures d == NothingToRead <==> available && !speaking && (text == "" || IsPlaceholder(text))
    ensures d == Proceed <==> available && !speaking && text != "" && !IsPlaceholder(text)
  {
    if !available then Unsupported
    else if speaking then CancelPlayback
    else if text == "" || IsPlaceholder(text) then NothingToRead
    else Proceed
  }

  /** One utterance request; pitch and volume are always 1, the rate is in hundredths. */
  datatype Utterance = Utterance(text: string, lang: string, voice: Option<Voice>, rate: nat)

  /** A call the page makes on the synthesis engine. */
  datatype EngineCall = Cancel | Speak(utterance: Utterance)

  /** The page's read-aloud state: the current utterance and the engine calls made so far. */
  class Speaker {
    var currentUtterance: Option<Utterance>
    var calls: seq<EngineCall>

    constructor ()
      ensures currentUtterance == None && calls == []
    {
      currentUtterance := None;
      calls := [];
    }

    /**
     * The synchronous part of `speakTranslatedText`: a cancel when playback
     * is toggled off or about to start, nothing otherwise; never a new utterance.
     */
    method SpeakTranslatedText(text: string, available: bool, speaking: bool) returns (d: SpeakDecision)
      modifies this
      ensures d == SpeakGuard(available, speaking, text)
      ensures currentUtterance == old(currentUtterance)
      ensures calls == old(calls) + (if d == CancelPlayback || d == Proceed then [Cancel] else [])
    {
      if !available {
        return Unsupported;
      }
      if speaking {
        calls := calls + [Cancel];
        return CancelPlayback;
      }
      if text == "" || IsPlaceholder(text) {
        return NothingToRead;
      }
      calls := calls + [Cancel];
      d := Proceed;
    }

    /** The delayed callback's first step: a provisional utterance at the target locale, rate 0.9, no voice. */
    method PrepareUtterance(text: string, targetLang: string) returns (langCode: string)
      modifies this
      ensures langCode == Locale.SpeechLanguageCode(targetLang)
      ensures currentUtterance == Some(Utterance(text, langCode, None, 90))
      ensures calls == old(calls)
    {
      langCode := Locale.SpeechLanguageCode(targetLang);
      currentUtterance := Some(Utterance(text, langCode, None, 90));
    }

    /**
     * `selectVoiceAndSpeak`: replaces the current utterance by one with the
     * selected voice and the language's rate, and hands it to the engine.
     * `missing` is whether the chain found no voice (the page then alerts).
     */
    method SelectVoiceAndSpeak(voices: seq<Voice>, langCode: string, text: string) returns (missing: bool)
      modifies this
      ensures missing <==> FindVoice(voices, langCode).None?
      ensures currentUtterance == Some(Utterance(text, langCode, SelectVoice(voices, langCode), SpeechRate(LangPrefix(langCode))))
      ensures calls == old(calls) + [Speak(currentUtterance.value)]
    {
      var langPrefix := LangPrefix(langCode);
      var found := FindVoice(voices, langCode);
      missing := found.None?;
      var selectedVoice: Option<Voice> := if found.Some? then Some(voices[found.value]) else None;
      if selectedVoice.None? && |voices| > 0 {
        selectedVoice := Some(voices[0]);
      }
      var u := Utterance(text, langCode, selectedVoice, SpeechRate(langPrefix));
      currentUtterance := Some(u);
      calls := calls + [Speak(u)];
    }
  }

  /** Playing is toggled off before the text is looked at: any text, even a placeholder, just cancels. */
  lemma SpeakingTogglesFirst(text: string)
    ensures SpeakGuard(true, true, text) == CancelPlayback
  {
  }

  /** Text without any of the letters the placeholders start with holds none of them. */
  lemma NoPlaceholderInitial(text: string)
    requires 'E' !in text && 'P' !in text && 'T' !in text
    ensures !IsPlaceholder(text)
  {
    MissingFirstCharNotIncluded(text, "Error");
    MissingFirstCharNotIncluded(text, "Please enter");
    MissingFirstCharNotIncluded(text, "Translating");
  }

  /** Any text that contains a marker is refused, wherever the marker stands. */
  lemma MarkedTextRefused(before: string, marker: string, after: string)
    requires marker == "Error" || marker == "Please enter" || marker == "Translating"
    ensures SpeakGuard(true, false, before + marker + after) == NothingToRead
  {
    var text := before + marker + after;
    assert text[|before|..][..|marker|] == marker;
  }

  /** The blank-text status of the translation is refused. */
  lemma BlankStatusRefused()
    ensures SpeakGuard(true, false, "Please enter text to translate") == NothingToRead
  {
    assert "Please enter text to translate" == "" + "Please enter" + " text to translate";
    MarkedTextRefused("", "Please enter", " text to translate");
  }

  /** The in-progress status of the translation is refused. */
  lemma TranslatingStatusRefused()
    ensures SpeakGuard(true, false, "Translating...") == NothingToRead
  {
    assert "Translating..." == "" + "Translating" + "...";
    MarkedTextRefused("", "Translating", "...");
  }

  /** Every error status is refused, whatever follows "Error: ". */
  lemma ErrorStatusRefused(detail: string)
    ensures SpeakGuard(true, false, Translation.ErrorPrefix + detail) == NothingToRead
  {
    assert Translation.ErrorPrefix + detail == "" + "Error" + (": " + detail);
    MarkedTextRefused("", "Error", ": " + detail);
  }

  /** The failure status of the translation is refused. */
  lemma FailureStatusRefused()
    ensures SpeakGuard(true, false, Translation.FailureMessage) == NothingToRead
  {
    ErrorStatusRefused("Unable to translate. Please try again.");
  }

  /** The substring test also refuses a genuine translation that happens to be a placeholder word. */
  lemma GenuineTextRefused()
    ensures SpeakGuard(true, false, "Error") == NothingToRead
  {
    assert "Error" == "" + "Error" + "";
    MarkedTextRefused("", "Error", "");
  }

  /** Text that lacks the initials of all three markers is read aloud. */
  lemma UnmarkedTextRead(text: string)
    requires text != "" && 'E' !in text && 'P' !in text && 'T' !in text
    ensures SpeakGuard(true, false, text) == Proceed
  {
    NoPlaceholderInitial(text);
  }

  /** The identical-languages status is read aloud like a translation. */
  lemma SameLanguagesRead()
    ensures SpeakGuard(true, false, Translation.SameLanguagesMessage) == Proceed
  {
    SameLanguagesNoE();
    SameLanguagesNoP();
    SameLanguagesNoT();
    UnmarkedTextRead(Translation.SameLanguagesMessage);
  }

  /** The identical-languages status holds none of the markers' initials, one letter per lemma. */
  lemma SameLanguagesNoE()
    ensures 'E' !in Translation.SameLanguagesMessage
  {
  }

  lemma SameLanguagesNoP()
    ensures 'P' !in Translation.SameLanguagesMessage
  {
  }

  lemma SameLanguagesNoT()
    ensures 'T' !in Translation.SameLanguagesMessage
  {
  }
}
