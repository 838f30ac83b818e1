/**
 * The page's shared session state: the dictation flag, the input text area
 * and the output area (which doubles as the status line), with every event
 * handler that changes them. The handlers are first given as transitions on
 * a value, `PageState`, which the lemmas reason about; the class `Page`
 * holds the same state in fields and its methods are proved to perform
 * exactly those transitions.
 */
module Session {
  import opened Wrappers
  import opened Text
  import Locale
  import opened Dictation
  import Translation
  import FileLoad

  const ListeningMessage: string := "Listening... Speak now!"
  const RecognizingPrefix: string := "Recognizing: "
  const StoppedMessage: string := "Voice input stopped. Click \"Translate\" to continue."
  const UnsupportedMessage: string := "Speech recognition is not supported in your browser. Please use Chrome, Edge, or Safari."

  /**
   * `recognition` is whether the browser offers speech recognition (fixed at
   * load time); `output` is the text of the output area.
   */
  datatype PageState = PageState(recognition: bool, isListening: bool, inputText: string, output: string)

  /** What a handler asks of the recognition engine. */
  datatype Command = NoCommand | StartEngine(lang: string) | StopEngine

  datatype Step = Step(next: PageState, command: Command)

  /** The engine's start event can only arrive when there is an engine. */
  predicate Consistent(s: PageState) {
    s.isListening ==> s.recognition
  }

  // ----- dictation -----

  /** `recognition.onstart`. */
  function Started(s: PageState): PageState
    requires s.recognition
  {
    s.(isListening := true, output := ListeningMessage)
  }

  /** `recognition.onresult` for one batch. */
  function ResultApplied(s: PageState, results: seq<Fragment>, resultIndex: nat): PageState {
    var batch := Pending(results, resultIndex);
    var interim := InterimText(batch);
    s.(inputText := s.inputText + FinalText(batch),
       output := if interim != "" then RecognizingPrefix + interim else s.output)
  }

  /** `stopVoiceRecognition`: acts only when there is an engine and it is listening. */
  function Stopped(s: PageState): Step {
    if s.recognition && s.isListening then Step(s.(isListening := false), StopEngine)
    else Step(s, NoCommand)
  }

  /** `toggleVoiceRecognition`, with the source language selector's value. */
  function Toggled(s: PageState, sourceLang: string): Step {
    if !s.recognition then Step(s.(output := UnsupportedMessage), NoCommand)
    else if s.isListening then Stopped(s)
    else Step(s, StartEngine(Locale.LanguageCode(sourceLang)))
  }

  /** `recognition.onerror`: show the code, then stop. */
  function Errored(s: PageState, code: string): Step
    requires s.recognition
  {
    Stopped(s.(output := Translation.ErrorPrefix + code))
  }

  /** `recognition.onend`: a status only if still listening, then stop. */
  function Ended(s: PageState): Step
    requires s.recognition
  {
    Stopped(if s.isListening then s.(output := StoppedMessage) else s)
  }

  /** Stopping when not listening changes nothing and sends nothing to the engine. */
  lemma StopWhenIdle(s: PageState)
    requires !s.isListening
    ensures Stopped(s) == Step(s, NoCommand)
  {
  }

  /** Stopping while listening clears the flag, stops the engine and touches nothing else. */
  lemma StopWhenListening(s: PageState)
    requires Consistent(s) && s.isListening
    ensures Stopped(s) == Step(s.(isListening := false), StopEngine)
  {
  }

  /** Stopping twice is stopping once: the second call changes nothing. */
  lemma StopIdempotent(s: PageState)
    ensures Stopped(Stopped(s).next) == Step(Stopped(s).next, NoCommand)
    ensures !Stopped(s).next.isListening || !s.recognition
  {
  }

  /**
   * With an engine, the toggle stops exactly when listening; otherwise it
   * starts the engine at the source language's locale and changes no state.
   * Without one it only reports that dictation is unsupported.
   */
  lemma ToggleChoice(s: PageState, sourceLang: string)
    ensures s.recognition ==> (Toggled(s, sourceLang).command == StopEngine <==> s.isListening)
    ensures s.recognition && !s.isListening ==>
      Toggled(s, sourceLang) == Step(s, StartEngine(Locale.LanguageCode(sourceLang)))
    ensures !s.recognition ==> Toggled(s, sourceLang) == Step(s.(output := UnsupportedMessage), NoCommand)
  {
  }

  /**
   * The end event leaves dictation off; it shows the stopped status exactly
   * when it arrives while listening, and leaves the output alone otherwise.
   */
  lemma EndStatus(s: PageState)
    requires s.recognition
    ensures !Ended(s).next.isListening
    ensures Ended(s).next.output == if s.isListening then StoppedMessage else s.output
    ensures Ended(s).command == if s.isListening then StopEngine else NoCommand
  {
  }

  /** The error event always shows the code and leaves dictation off. */
  lemma ErrorStatus(s: PageState, code: string)
    requires s.recognition
    ensures !Errored(s, code).next.isListening
    ensures Errored(s, code).next.output == Translation.ErrorPrefix + code
  {
  }

  /**
   * A result batch appends every final transcript from `resultIndex` on, in
   * order and each followed by a space, and nothing else; the output becomes
   * "Recognizing: " and the interim text exactly when that text is not empty.
   */
  lemma ResultEffect(s: PageState, results: seq<Fragment>, resultIndex: nat)
    ensures var t := ResultApplied(s, results, resultIndex);
      t.inputText == s.inputText + Spaced(Finals(Pending(results, resultIndex))) &&
      t.isListening == s.isListening && t.recognition == s.recognition
    ensures var interim := Concat(Interims(Pending(results, resultIndex)));
      ResultApplied(s, results, resultIndex).output == if interim != "" then RecognizingPrefix + interim else s.output
  {
    FoldMeaning(Pending(results, resultIndex));
  }

  // ----- file upload -----

  /** The synchronous part of `handleFileUpload`: only the too-large case shows anything. */
  function Uploaded(s: PageState, file: Option<FileLoad.FileInfo>): PageState {
    if FileLoad.Decide(file) == FileLoad.TooLarge then s.(output := FileLoad.TooLargeMessage) else s
  }

  /** The reader's load handler for the file named `name`. */
  function Loaded(s: PageState, name: string, content: string): PageState {
    if FileLoad.LoadAccepted(name) then s.(inputText := content, output := FileLoad.LoadedMessage)
    else s.(output := FileLoad.NotTextMessage)
  }

  /** The reader's error handler. */
  function ReadFailed(s: PageState): PageState {
    s.(output := FileLoad.ReadErrorMessage)
  }

  /** A missing file or one not named *.txt changes nothing; a too-large one only the output. */
  lemma UploadEffect(s: PageState, file: Option<FileLoad.FileInfo>)
    ensures FileLoad.Decide(file) != FileLoad.TooLarge ==> Uploaded(s, file) == s
    ensures Uploaded(s, file).(output := s.output) == s
  {
  }

  /**
   * A read is started only for a file whose load replaces the input text
   * wholesale by the file's content, whatever was typed before.
   */
  lemma LoadReplaces(s: PageState, file: Option<FileLoad.FileInfo>, content: string)
    requires FileLoad.Decide(file) == FileLoad.ReadText
    ensures Loaded(s, file.value.name, content) == s.(inputText := content, output := FileLoad.LoadedMessage)
  {
  }

  // ----- translation -----

  /** `translateText` up to the request: the output shows the check's verdict or "Translating...". */
  function TranslationBegun(s: PageState, source: string, target: string): PageState {
    s.(output := Translation.ValidationStatus(Translation.Validate(s.inputText, source, target)))
  }

  /** `translateText` after the reply. */
  function TranslationFinished(s: PageState, reply: Option<seq<Translation.Segment>>): PageState {
    s.(output := Translation.ReplyStatus(reply))
  }

  /**
   * Blank input is reported before identical languages are, and neither
   * sends a request; translation only ever changes the output area.
   */
  lemma TranslationChecks(s: PageState, source: string, target: string)
    ensures IsBlank(s.inputText) ==> TranslationBegun(s, source, target).output == Translation.BlankTextMessage
    ensures !IsBlank(s.inputText) && source == target ==>
      TranslationBegun(s, source, target).output == Translation.SameLanguagesMessage
    ensures Translation.Validate(s.inputText, source, target).Send? <==> !IsBlank(s.inputText) && source != target
    ensures TranslationBegun(s, source, target).(output := s.output) == s
  {
  }

  /** Every handler keeps `Consistent`: the flag is only ever set where there is an engine. */
  lemma HandlersKeepConsistent(s: PageState, results: seq<Fragment>, resultIndex: nat, code: string, lang: string,
                               file: Option<FileLoad.FileInfo>, name: string, content: string,
                               source: string, target: string, reply: Option<seq<Translation.Segment>>)
    requires Consistent(s)
    ensures s.recognition ==> Consistent(Started(s)) && Consistent(Errored(s, code).next) && Consistent(Ended(s).next)
    ensures Consistent(ResultApplied(s, results, resultIndex)) && Consistent(Stopped(s).next)
    ensures Consistent(Toggled(s, lang).next)
    ensures Consistent(Uploaded(s, file)) && Consistent(Loaded(s, name, content)) && Consistent(ReadFailed(s))
    ensures Consistent(TranslationBegun(s, source, target)) && Consistent(TranslationFinished(s, reply))
  {
  }

  /** The page: its fields are the session state, its methods the event handlers. */
  class Page {
    const recognition: bool
    var isListening: bool
    var inputText: string
    var output: string

    function State(): PageState
      reads this
    {
      PageState(recognition, isListening, inputText, output)
    }

    /** The page as loaded: not listening, with the given contents of the two text areas. */
    constructor (recognition: bool, inputText: string, output: string)
      ensures State() == PageState(recognition, false, inputText, output)
      ensures Consistent(State())
    {
      this.recognition := recognition;
      this.isListening := false;
      this.inputText := inputText;
      this.output := output;
    }

    method OnStart()
      requires recognition
      modifies this
      ensures State() == Started(old(State()))
    {
      isListening := true;
      output := ListeningMessage;
    }

    method OnResult(results: seq<Fragment>, resultIndex: nat)
      modifies this
      ensures State() == ResultApplied(old(State()), results, resultIndex)
    {
      var finalTranscript, interimTranscript := FoldBatch(results, resultIndex);
      inputText := inputText + finalTranscript;
      if interimTranscript != "" {
        output := RecognizingPrefix + interimTranscript;
      }
    }

    method StopVoiceRecognition() returns (command: Command)
      modifies this
      ensures Step(State(), command) == Stopped(old(State()))
    {
      command := NoCommand;
      if recognition && isListening {
        command := StopEngine;
        isListening := false;
      }
    }

    method ToggleVoiceRecognition(sourceLang: string) returns (command: Command)
      modifies this
      ensures Step(State(), command) == Toggled(old(State()), sourceLang)
    {
      if !recognition {
        output := UnsupportedMessage;
        return NoCommand;
      }
      if isListening {
        command := StopVoiceRecognition();
      } else {
        command := StartEngine(Locale.LanguageCode(sourceLang));
      }
    }

    method OnError(code: string) returns (command: Command)
      requires recognition
      modifies this
      ensures Step(State(), command) == Errored(old(State()), code)
    {
      output := Translation.ErrorPrefix + code;
      command := StopVoiceRecognition();
    }

    method OnEnd() returns (command: Command)
      requires recognition
      modifies this
      ensures Step(State(), command) == Ended(old(State()))
    {
      if isListening {
        output := StoppedMessage;
      }
      command := StopVoiceRecognition();
    }

    /** Returns whether a read of the file is started. */
    method HandleFileUpload(file: Option<FileLoad.FileInfo>) returns (read: bool)
      modifies this
      ensures State() == Uploaded(old(State()), file)
      ensures read <==> FileLoad.Decide(file) == FileLoad.ReadText
    {
      if file.None? {
        return false;
      }
      if file.value.size > FileLoad.MaxFileSize {
        output := FileLoad.TooLargeMessage;
        return false;
      }
      read := EndsWith(file.value.name, ".txt");
    }

    method OnFileLoad(name: string, content: string)
      modifies this
      ensures State() == Loaded(old(State()), name, content)
    {
      if EndsWith(name, ".txt") {
        inputText := content;
        output := FileLoad.LoadedMessage;
      } else {
        output := FileLoad.NotTextMessage;
      }
    }

    method OnFileError()
      modifies this
      ensures State() == ReadFailed(old(State()))
    {
      output := FileLoad.ReadErrorMessage;
    }

    /** Returns the request to send, if the checks pass. */
    method BeginTranslation(source: string, target: string) returns (request: Option<Translation.Request>)
      modifies this
      ensures State() == TranslationBegun(old(State()), source, target)
      ensures request.Some? <==> Translation.Validate(old(inputText), source, target).Send?
      ensures request.Some? ==> request.value == Translation.Request(old(inputText), source, target)
    {
      var text := inputText;
      if IsBlank(text) {
        output := Translation.BlankTextMessage;
        return None;
      }
      if source == target {
        output := Translation.SameLanguagesMessage;
        return None;
      }
      output := Translation.TranslatingMessage;
      request := Some(Translation.Request(text, source, target));
    }

    method FinishTranslation(reply: Option<seq<Translation.Segment>>)
      modifies this
      ensures State() == TranslationFinished(old(State()), reply)
    {
      match reply {
        case None =>
          output := Translation.FailureMessage;
        case Some(segments) =>
          output := Translation.Reassemble(segments);
      }
    }
  }
}
