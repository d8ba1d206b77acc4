/** The app component under `src/`: the key comes from the build
    environment, the key field is commented out, and the key used is the
    trimmed state key or, failing that, the environment key. Messages are
    in Chinese. An absent environment key is the empty string here. */
module SrcApp {
  import opened Wrappers
  import opened Text
  import opened Types
  import opened GeminiService
  import opened AppCore

  const MissingKeyMessage: string := "請輸入您的 Google Gemini API 金鑰以繼續。"
  const FallbackMessage: string := "分析過程中發生意外錯誤。"

  /** The state key starts as the environment key (or the empty string). */
  function Initial(envKey: string): AppState
  {
    AppState(Idle, None, None, envKey)
  }

  /** `apiKey.trim() || envKey` */
  function KeyToUse(apiKey: string, envKey: string): string
  {
    if Trim(apiKey) != "" then Trim(apiKey) else envKey
  }

  datatype Begin = Begin(next: AppState, call: Option<string>)

  /** `handleFileSelect` up to the `await`. */
  function BeginStep(s: AppState, envKey: string): Begin
  {
    var key := KeyToUse(s.apiKey, envKey);
    if key == "" then Begin(s.(errorMsg := Some(MissingKeyMessage), status := Error), None)
    else Begin(s.(status := Processing, errorMsg := None, extractedData := None), Some(key))
  }

  /** The whole of `handleFileSelect`, with the model's reply as input. */
  function FileSelectStep(s: AppState, envKey: string, reply: Reply): AppState
  {
    var b := BeginStep(s, envKey);
    if b.call.None? then b.next
    else FinishStep(b.next, ExtractMedicalData(b.call.value, reply), FallbackMessage)
  }

  // ---------------------------------------------------------------------
  // What the page offers in each state

  /** The upload box is shown in IDLE and ERROR... */
  predicate UploadPanelShown(s: AppState)
  {
    s.status == Idle || s.status == Error
  }

  /** ...and disabled while the state key is the empty string. */
  predicate UploadEnabled(s: AppState)
  {
    UploadPanelShown(s) && s.apiKey != ""
  }

  /** The block holding the data card, the prompt and the two buttons is
      shown in PROCESSING and COMPLETE. */
  predicate ResultsBlockShown(s: AppState)
  {
    s.status == Processing || s.status == Complete
  }

  /** The retry button sits inside that block and asks for ERROR: it is
      never shown. */
  function RetryButtonShown(s: AppState): (r: bool)
    ensures !r
  {
    ResultsBlockShown(s) && s.status == Error
  }

  /** The reset button inside the block asks for COMPLETE. */
  predicate ResetButtonShown(s: AppState)
  {
    ResultsBlockShown(s) && s.status == Complete
  }

  /** The prompt is shown in COMPLETE with data. */
  predicate PromptShown(s: AppState)
  {
    s.status == Complete && s.extractedData.Some?
  }

  /** The key field is commented out, so nothing sets the key; retry is
      never offered. */
  datatype Event =
    | SelectFile
    | Settle(reply: Reply)
    | ClickReset

  predicate Enabled(s: AppState, e: Event)
  {
    match e
    case SelectFile => UploadEnabled(s)
    case Settle(_) => s.status == Processing
    case ClickReset => ResetButtonShown(s)
  }

  function Step(s: AppState, envKey: string, e: Event): AppState
  {
    match e
    case SelectFile => BeginStep(s, envKey).next
    case Settle(reply) => FinishStep(s, ExtractMedicalData(KeyToUse(s.apiKey, envKey), reply), FallbackMessage)
    case ClickReset => ResetStep(s)
  }

  function Run(s: AppState, envKey: string, es: seq<Event>): Option<AppState>
    decreases es
  {
    if es == [] then Some(s)
    else if Enabled(s, es[0]) then Run(Step(s, envKey, es[0]), envKey, es[1..])
    else None
  }

  // ---------------------------------------------------------------------
  // Properties

  /** The key used is the trimmed state key when that is not blank, and the
      environment key otherwise; it is empty exactly when the state key is
      blank and there is no environment key. */
  lemma KeyToUseChoice(apiKey: string, envKey: string)
    ensures KeyToUse(apiKey, envKey) == "" <==> AllWhitespace(apiKey) && envKey == ""
    ensures !AllWhitespace(apiKey) ==> KeyToUse(apiKey, envKey) == Trim(apiKey)
    ensures AllWhitespace(apiKey) ==> KeyToUse(apiKey, envKey) == envKey
  {
    TrimEmptyIffBlank(apiKey);
  }

  /** Without a usable key: ERROR with the request for a key and no call.
      Otherwise PROCESSING with data and message cleared, and the call
      receives the key chosen above. */
  lemma BeginOutcome(s: AppState, envKey: string)
    ensures var b := BeginStep(s, envKey);
      (b.call.None? <==> AllWhitespace(s.apiKey) && envKey == "")
      && (b.call.None? ==> b.next == AppState(Error, s.extractedData, Some(MissingKeyMessage), s.apiKey))
      && (b.call.Some? ==> b.next == AppState(Processing, None, None, s.apiKey)
                           && b.call.value == KeyToUse(s.apiKey, envKey))
  {
    KeyToUseChoice(s.apiKey, envKey);
  }

  /** With the state key equal to the environment key, a file can only be
      selected when that key is not empty, and then the key used is not
      empty either: the request for a key is never shown. */
  lemma MissingKeyUnreachable(s: AppState, envKey: string)
    requires s.apiKey == envKey && UploadEnabled(s)
    ensures BeginStep(s, envKey).call.Some?
    ensures BeginStep(s, envKey).next.status == Processing
  {
    BeginOutcome(s, envKey);
  }

  /** An environment key of spaces is passed to the extraction as it is
      (the fallback is not trimmed), where it fails with the generic
      message. */
  lemma BlankEnvKeyReachesService(s: AppState, envKey: string, reply: Reply)
    requires s.apiKey == envKey && envKey != "" && AllWhitespace(envKey)
    ensures BeginStep(s, envKey).call == Some(envKey)
    ensures ExtractMedicalData(envKey, reply).Ok? <==> reply.Parsed?
  {
    BeginOutcome(s, envKey);
    TrimEmptyIffBlank(envKey);
    ExtractionOutcome(envKey, reply);
  }

  /** What every reachable state satisfies: the state key is still the
      environment key, the state is consistent, the only message ever shown
      is the service's generic message, and any status other than IDLE
      means a non-empty key. */
  predicate Inv(s: AppState, envKey: string)
  {
    s.apiKey == envKey
    && Consistent(s)
    && (s.errorMsg.Some? ==> s.errorMsg.value == GenericError)
    && (s.status != Idle ==> envKey != "")
  }

  lemma StepInv(s: AppState, envKey: string, e: Event)
    requires Inv(s, envKey) && Enabled(s, e)
    ensures Inv(Step(s, envKey, e), envKey)
  {
    match e
    case SelectFile =>
      MissingKeyUnreachable(s, envKey);
      BeginOutcome(s, envKey);
    case Settle(reply) =>
      var key := KeyToUse(s.apiKey, envKey);
      KeyToUseChoice(s.apiKey, envKey);
      ExtractionOutcome(key, reply);
      FinishFromProcessing(s, ExtractMedicalData(key, reply), FallbackMessage);
    case ClickReset =>
      ResetClears(s);
  }

  lemma {:induction false} RunInv(s: AppState, envKey: string, es: seq<Event>)
    requires Inv(s, envKey)
    ensures Run(s, envKey, es).Some? ==> Inv(Run(s, envKey, es).value, envKey)
    decreases es
  {
    if es != [] && Enabled(s, es[0]) {
      StepInv(s, envKey, es[0]);
      RunInv(Step(s, envKey, es[0]), envKey, es[1..]);
    }
  }

  /** In every reachable state the key is the environment key, COMPLETE
      holds data and no other status does, and the only error message ever
      shown is the service's generic one: neither the request for a key nor
      the fallback text can appear. */
  lemma ReachableInv(envKey: string, es: seq<Event>)
    ensures Run(Initial(envKey), envKey, es).Some? ==>
      var t := Run(Initial(envKey), envKey, es).value;
      t.apiKey == envKey && Consistent(t)
      && (t.errorMsg.Some? ==> t.errorMsg.value == GenericError)
  {
    RunInv(Initial(envKey), envKey, es);
  }

  /** The whole handler, run where the upload box is enabled, is the
      selection followed by the reply, and keeps the invariant. */
  lemma FileSelectKeepsInv(s: AppState, envKey: string, reply: Reply)
    requires Inv(s, envKey) && UploadEnabled(s)
    ensures FileSelectStep(s, envKey, reply) == Step(Step(s, envKey, SelectFile), envKey, Settle(reply))
    ensures Inv(FileSelectStep(s, envKey, reply), envKey)
  {
    MissingKeyUnreachable(s, envKey);
    BeginOutcome(s, envKey);
    StepInv(s, envKey, SelectFile);
    StepInv(Step(s, envKey, SelectFile), envKey, Settle(reply));
  }

  /** Without an environment key nothing ever happens: the upload stays
      disabled and the page stays IDLE. */
  lemma {:induction false} NoEnvKeyStaysIdle(envKey: string, es: seq<Event>)
    requires envKey == ""
    ensures Run(Initial(envKey), envKey, es).Some? ==> Run(Initial(envKey), envKey, es).value == Initial(envKey)
  {
    if es != [] {
      assert !Enabled(Initial(envKey), es[0]);
    }
  }

  // ---------------------------------------------------------------------
  // The component's state, updated in place by its handlers

  class App {
    var status: AppStatus
    var extractedData: Option<ExtractedMedicalData>
    var errorMsg: Option<string>
    var apiKey: string
    /** `import.meta.env.VITE_GEMINI_API_KEY`, or the empty string. */
    const envKey: string

    function State(): AppState
      reads this
    {
      AppState(status, extractedData, errorMsg, apiKey)
    }

    constructor (env: string)
      ensures envKey == env && State() == Initial(env)
    {
      envKey := env;
      status := Idle;
      extractedData := None;
      errorMsg := None;
      apiKey := env;
    }

    /** `handleFileSelect` up to the `await`: returns the key the
        extraction is called with, or None after the early return. */
    method BeginFileSelect() returns (call: Option<string>)
      modifies this
      ensures State() == BeginStep(old(State()), envKey).next
      ensures call == BeginStep(old(State()), envKey).call
    {
      var keyToUse := if Trim(apiKey) != "" then Trim(apiKey) else envKey;
      if keyToUse == "" {
        errorMsg := Some(MissingKeyMessage);
        status := Error;
        return None;
      }
      status := Processing;
      errorMsg := None;
      extractedData := None;
      call := Some(keyToUse);
    }

    /** `handleFileSelect` after the `await` settles. */
    method FinishFileSelect(outcome: Result<ExtractedMedicalData, string>)
      modifies this
      ensures State() == FinishStep(old(State()), outcome, FallbackMessage)
    {
      match outcome {
        case Ok(data) =>
          extractedData := Some(data);
          status := Complete;
        case Err(message) =>
          errorMsg := Some(if message != "" then message else FallbackMessage);
          status := Error;
      }
    }

    /** The whole handler, with the extraction service in between. */
    method HandleFileSelect(reply: Reply)
      modifies this
      ensures State() == FileSelectStep(old(State()), envKey, reply)
    {
      var call := BeginFileSelect();
      if call.Some? {
        var outcome := ExtractMedicalData(call.value, reply);
        FinishFileSelect(outcome);
      }
    }

    method HandleReset()
      modifies this
      ensures State() == ResetStep(old(State()))
    {
      status := Idle;
      extractedData := None;
      errorMsg := None;
    }
  }
}
