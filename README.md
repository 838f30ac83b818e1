# Language Translator page logic, modelled in Dafny

The Language Translator is a single browser page (`app.js`). The user types, dictates or uploads text. The page translates it through a remote endpoint and can read the result aloud. Almost all of the file is wiring to browser services. This project models the deterministic decisions inside its event handlers and proves what they guarantee:

- **Language Code Mapper** (`locale.dfy`). The two literal tables behind `getLanguageCode` and `getSpeechLanguageCode` map a two-letter code to a locale tag, with `en-US` as the default. Both tables are modelled and proved to agree.
- **Dictation Controller** (`dictation.dfy`, `session.dfy`):
  - the result handler's loop over a batch of `{transcript, isFinal}` results, as a method with loop invariants proved against a specification function;
  - the `isListening` flag handled by `onstart`, `stopVoiceRecognition`, `toggleVoiceRecognition`, `onend` and `onerror`.
- **File Loader** (`fileload.dfy`, `session.dfy`). This covers the no-file check, the inclusive 5 MiB limit and the `.txt` check. A completed read replaces the input text.
- **Translation Client** (`translation.dfy`, `session.dfy`). This covers the blank-text and same-language checks, in that order. It also covers the reassembly `result[0].map(item => item[0]).join('')` over the decoded segment list.
- **Speech Playback Controller** (`voices.dfy`, `playback.dfy`):
  - the guard of `speakTranslatedText`;
  - the four-step first-match voice search with its fallback to the first voice;
  - the per-language rate;
  - the utterance that `selectVoiceAndSpeak` builds and hands to the engine.

## Structure

The page's shared state is the class `Session.Page`. Its fields are:

- `recognition`: whether the browser has a recognition engine;
- `isListening`;
- `inputText`: the input text area;
- `output`: the output area, which also serves as the status line.

Each handler is first defined as a transition on the value `Session.PageState`, and the lemmas reason about these transitions. Each method of `Page` is proved to perform exactly its transition. The class `Playback.Speaker` holds `currentUtterance`. It also records the calls made on the synthesis engine (`Cancel`, `Speak(utterance)`) as a sequence. Values the page reads from the browser are parameters of the model:

- the engine's `speaking` flag;
- the voice catalogue;
- the selector values;
- the selected file's name and size;
- the file content;
- the decoded translation reply.

Rates are integer hundredths (80, 85, 90).

Behaviour of the code that the model makes explicit:

- A file not named `*.txt` is never read and nothing is reported. A read is started only for names ending in `.txt`, so the load handler's "Please upload a .txt file." branch never runs (`FileLoad.NotTextBranchUnreachable`).
- The status shows every interim transcript of the batch, joined, after "Recognizing: ", not only the latest.
- The placeholder test matches substrings, so the read-aloud guard refuses any text that merely contains "Error", "Please enter" or "Translating". `Playback.GenuineTextRefused` shows this for a genuine translation `Error`. The guard does not refuse the identical-languages status "Source and target languages are the same!": that text has none of the three markers' initials (`Playback.SameLanguagesRead`).

## Model

| member | source | states |
|---|---|---|
| `Locale.LanguageCode` | app.js:87-102 | a supported code gives an `xx-YY` tag whose language part is the code; any other code gives `en-US`; the tag's prefix equals the code exactly when the code is supported |
| `Locale.SpeechLanguageCode` | app.js:373-388 | the same three facts for the speech table |
| `Locale.SouthAsianLocales` | app.js:88-100 | ta, te, ml, hi and pa map to `-IN`, ur maps to `ur-PK` |
| `Locale.OtherLocales` | app.js:88-100 | en, ar, de, fr and es map to en-US, ar-SA, de-DE, fr-FR and es-ES |
| `Locale.LanguageCodesAgree` | app.js:373-388 | the dictation and the speech table give the same locale for every input |
| `Dictation.FoldBatch` | app.js:23-34 | the loop visits the results from `resultIndex` on (none if the index is past the end); the committed text equals `FinalText` of them, the interim text equals `InterimText` of them |
| `Dictation.FoldMeaning` | app.js:27-34 | the committed text is each final transcript in index order followed by one space; the interim text is the interim transcripts joined in order |
| `Dictation.InterimNeverCommitted` | app.js:29-33 | changing the transcript of an interim result never changes the committed text |
| `Dictation.FinalNeverInterim` | app.js:29-33 | changing the transcript of a final result never changes the interim text |
| `Dictation.TwoFinalsOneInterim` | app.js:27-34 | for `[a (final), b (final), c (interim)]` the text `a␣b␣` is committed and only `c` is shown |
| `Session.Page.constructor` | app.js:3-6 | the page starts not listening |
| `Session.Page.OnStart` | app.js:15-21 | sets the listening flag and shows the listening status |
| `Session.Page.OnResult` | app.js:23-42 | appends the batch's committed text to the input; replaces the output only when the interim text is non-empty |
| `Session.ResultEffect` | app.js:36-41 | after a batch, the input is the old input followed by every final transcript plus a space; the flag is untouched; the output becomes "Recognizing: " + interim text exactly when that text is non-empty |
| `Session.Page.StopVoiceRecognition` | app.js:77-85 | performs `Stopped`: acts only with an engine and while listening |
| `Session.StopWhenIdle` | app.js:77-85 | when not listening, stopping changes nothing and sends no command |
| `Session.StopWhenListening` | app.js:78-80 | when listening, stopping clears the flag, stops the engine and changes nothing else |
| `Session.StopIdempotent` | app.js:77-85 | a second stop changes nothing: stopping twice equals stopping once |
| `Session.Page.ToggleVoiceRecognition` | app.js:58-75 | performs `Toggled`: an unsupported message with no engine, a stop when listening, otherwise an engine start at `LanguageCode(sourceLang)` |
| `Session.ToggleChoice` | app.js:58-75 | with an engine, the toggle stops exactly when listening; otherwise it starts the engine at the mapped locale with the state unchanged; with no engine it only reports |
| `Session.Page.OnError` | app.js:44-48 | shows "Error: " + code, then stops |
| `Session.ErrorStatus` | app.js:44-48 | after an error, dictation is off and the output is "Error: " + code |
| `Session.Page.OnEnd` | app.js:50-55 | the stopped status only when still listening, then stops |
| `Session.EndStatus` | app.js:50-55 | after the end event, dictation is off; the output is the stopped status exactly when it was listening, and is unchanged otherwise; the engine is told to stop exactly then |
| `Session.HandlersKeepConsistent` | app.js:9-21 | every handler keeps the invariant that the flag is only set when there is an engine |
| `FileLoad.Decide` | app.js:109-138 | no file gives nothing; the file is too large exactly when its size exceeds 5 MiB; it is read exactly when it is within the limit and named `*.txt`; otherwise nothing is read |
| `FileLoad.SizeBoundary` | app.js:111-115 | a text file of exactly 5 MiB is read; 5 MiB + 1 and 6 MiB are refused |
| `FileLoad.NotTextBranchUnreachable` | app.js:123-138 | whenever a read is started, the load handler takes its `.txt` branch |
| `Session.Page.HandleFileUpload` | app.js:105-139 | the output changes only for a too-large file; reports whether a read starts, exactly when `Decide` says `ReadText` |
| `Session.UploadEffect` | app.js:109-138 | the upload handler changes only the output, and only for a too-large file |
| `Session.Page.OnFileLoad` | app.js:119-129 | performs `Loaded` |
| `Session.LoadReplaces` | app.js:119-138 | for any file that is read, the load replaces the input with the content and shows the loaded status |
| `Session.Page.OnFileError` | app.js:131-133 | shows the read-error status |
| `Translation.Validate` | app.js:147-156 | blank after trimming gives `BlankText`; otherwise equal languages give `SameLanguages`; only the remaining case gives a request carrying text, source and target |
| `Translation.BlankTakesPrecedence` | app.js:147-156 | blank text with equal languages is reported as blank |
| `Session.TranslationChecks` | app.js:141-159 | blank input shows the enter-text message; otherwise equal languages show the same-language message; a request exists exactly when neither holds; only the output changes |
| `Session.Page.BeginTranslation` | app.js:141-159 | returns a request exactly when the checks pass, with the typed text and the two codes, and performs `TranslationBegun` |
| `Translation.ReassembleSplit` | app.js:171 | the reassembled text is the chunks before segment k, then segment k's chunk, then the chunks after it: nothing is reordered or dropped |
| `Translation.ReassembleLength` | app.js:171 | the reassembled length is the sum of the chunk lengths |
| `Translation.HolaExample` | app.js:171 | the reply `[["Hola","Hello"]]` reassembles to "Hola" |
| `Translation.ReassembleIsConcat` | app.js:171 | reassembling segment by segment gives the join of the list of every segment's first cell, in order |
| `Translation.ReplyStatus` | app.js:161-182 | a failed reply gives the failure text; a decoded reply gives the join of its segments' first cells |
| `Session.Page.FinishTranslation` | app.js:170-182 | the output becomes `ReplyStatus(reply)` |
| `Voices.FindFirst` | app.js:262-265 | the index found satisfies the search and no earlier voice does; no index is found exactly when no voice satisfies it |
| `Text.LangPrefix` | app.js:259 | `split('-')[0]`: the result is a prefix of the tag, holds no dash, and is followed in the tag by a dash unless it is the whole tag |
| `Voices.FindVoice` | app.js:262-265 | an index found by the chain lies in the catalogue, and its voice satisfies one of the four searches |
| `Voices.ChainPicksBest` | app.js:262-265 | the chain finds a voice exactly when some voice satisfies some search; no voice satisfies an earlier search than the one found, and no earlier voice satisfies the same search |
| `Voices.SelectVoice` | app.js:258-295 | there is no voice exactly when the catalogue is empty; any voice chosen comes from the catalogue |
| `Voices.FallbackToFirst` | app.js:291-295 | with no voice matching any search, the first voice is used |
| `Voices.ExactBeatsEarlierPrefix` | app.js:262-263 | an exact `ta-IN` voice is chosen over an earlier `ta-XX` voice |
| `Voices.SpeechRate` | app.js:306-314 | 80 exactly for ta/te/ml/hi/pa/ur, 85 exactly for ar, 90 exactly for every other prefix |
| `Voices.RateForCode` | app.js:306-314 | through the speech table, the six South-Asian codes read at 0.8, ar at 0.85, and every other code (unknown ones too) at 0.9 |
| `Playback.SpeakGuard` | app.js:191-209 | unsupported exactly without an engine; cancel exactly while speaking, before any text check; refused exactly for empty or marked text; proceeds only otherwise |
| `Playback.SpeakingTogglesFirst` | app.js:197-203 | while speaking, any text, even a placeholder, only cancels |
| `Playback.MarkedTextRefused` | app.js:206 | any text containing "Error", "Please enter" or "Translating" anywhere is refused |
| `Playback.BlankStatusRefused` | app.js:206 | the blank-text status is not read aloud |
| `Playback.TranslatingStatusRefused` | app.js:206 | the in-progress status is not read aloud |
| `Playback.ErrorStatusRefused` | app.js:206 | no "Error: " status (recognition errors, translation failure) is read aloud |
| `Playback.FailureStatusRefused` | app.js:206 | the translation failure text is not read aloud |
| `Playback.GenuineTextRefused` | app.js:206 | a genuine translation "Error" is refused too |
| `Playback.UnmarkedTextRead` | app.js:206 | non-empty text without the letters E, P and T proceeds to speech |
| `Playback.SameLanguagesRead` | app.js:206 | the identical-languages status is not a placeholder: the guard lets it be read aloud |
| `Playback.Speaker.constructor` | app.js:5-6 | no current utterance, no engine calls |
| `Playback.Speaker.SpeakTranslatedText` | app.js:186-212 | the decision is `SpeakGuard`; a cancel is issued exactly on toggle-off or proceed; no utterance is created |
| `Playback.Speaker.PrepareUtterance` | app.js:215-224 | the provisional utterance has the speech locale, rate 0.9 and no voice; no engine call |
| `Playback.Speaker.SelectVoiceAndSpeak` | app.js:253-352 | the utterance carries the text, the locale, `SelectVoice`'s voice and the prefix's rate; it is appended to the engine calls as `Speak`; the missing-voice alert is raised exactly when the chain found nothing |

## Left out

- DOM details: button labels and CSS classes, and the Read Aloud button's visibility after a translation. They are presentation only. The input and output areas are the `inputText` and `output` fields.
- Alerts and console output: the language-name table used only in the missing-voice alert, the synthesis error-code alerts, and every `console` call. They are user-facing wording with no effect on state.
- The translation HTTP request: URL construction, `encodeURIComponent`, `fetch`, `response.ok` and JSON parsing. The reply is a parameter. It is either the decoded segment list with string cells, or `None` for any failure, including a body without `result[0]`. Non-string cells such as `null` and numbers are not modelled.
- `FileReader`: reading and decoding the content is I/O. The content and the choice between the load and the error handler are parameters.
- The recognition and synthesis engines are foreign browser APIs. Their start/stop behaviour, `getVoices`, and the utterance's `onstart`/`onend`/`onerror` handlers are not modelled. The engine's `speaking` flag is an input.
- Timers and the catalogue wait:
  - the 200 ms delay before speaking;
  - the wait for an empty catalogue: the `onvoiceschanged` callback and the 100 ms re-check both call `selectVoiceAndSpeak`, the re-check only when voices have appeared by then. So speech can start twice, and if `onvoiceschanged` never fires and the catalogue is still empty at the re-check, nothing is spoken at all;
  - the 500 ms watchdog.
  These are callback scheduling and concurrency. The model offers `PrepareUtterance` and `SelectVoiceAndSpeak` as separate steps a caller may invoke in any order.
- The load-time voice survey. It is console diagnostics only.
- `toLowerCase` is modelled for ASCII letters only. Full Unicode case mapping is not modelled.
- `String.prototype.trim` is modelled by its set of white-space and line-terminator characters. Only the emptiness of the trimmed text matters.
- Recognition results keep only their first alternative, the only one the handler reads.
- JavaScript property lookup on the object tables (inherited names such as `toString`). The tables are finite maps.
- Speech rates, pitch and volume as floating point. Rates are hundredths; pitch and volume are always 1 and are not stored.
- `Voices.SelectVoice`: its own contract only says that a voice exists exactly for a non-empty catalogue. Which voice it is follows from `ChainPicksBest` and `FallbackToFirst`.
