/** The app component at the repository root: the key is typed by the
    user, a blank key is refused before the extraction, and the extraction
    receives the key as typed. */
module MainApp {
  import opened Wrappers
  import opened Text
  import opened Types
  import opened GeminiService
  import opened AppCore

  const MissingKeyMessage: string := "Please enter your Google Gemini API Key to proceed."
  const FallbackMessage: string := "An unexpected error occurred during analysis."

  function Initial(): AppState
  {
    AppState(Idle, None, None, "")
  }

  /** The first, synchronous half of `handleFileSelect`: the state it
      leaves and the key the extraction is called with, if it is called. */
  datatype Begin = Begin(next: AppState, call: Option<string>)

  function BeginStep(s: AppState): Begin
  {
    if Trim(s.apiKey) == "" then Begin(s.(errorMsg := Some(MissingKeyMessage), status := Error), None)
    else Begin(s.(status := Processing, errorMsg := None, extractedData := None), Some(s.apiKey))
  }

  /** The whole of `handleFileSelect`, with the model's reply as input. */
  function FileSelectStep(s: AppState, reply: Reply): AppState
  {
    var b := BeginStep(s);
    if b.call.None? then b.next
    else FinishStep(b.next, ExtractMedicalData(b.call.value, reply), FallbackMessage)
  }

  // ---------------------------------------------------------------------
  // What the page offers in each state

  /** The key field and the upload box are shown in IDLE and ERROR. */
  predicate UploadPanelShown(s: AppState)
  {
    s.status == Idle || s.status == Error
  }

  /** The upload box is disabled while the key is the empty string. */
  predicate UploadEnabled(s: AppState)
  {
    UploadPanelShown(s) && s.apiKey != ""
  }

  /** The data card and the prompt are shown in COMPLETE with data. */
  predicate ResultsShown(s: AppState)
  {
    s.status == Complete && s.extractedData.Some?
  }

  /** "Try Again" (ERROR) and "Scan Another Document" (results) both reset. */
  predicate ResetOffered(s: AppState)
  {
    s.status == Error || ResultsShown(s)
  }

  /** What the user can do, and the model's reply arriving. */
  datatype Event =
    | TypeKey(key: string)
    | SelectFile
    | Settle(reply: Reply)
    | ClickReset

  predicate Enabled(s: AppState, e: Event)
  {
    match e
    case TypeKey(_) => UploadPanelShown(s)
    case SelectFile => UploadEnabled(s)
    case Settle(_) => s.status == Processing
    case ClickReset => ResetOffered(s)
  }

  function Step(s: AppState, e: Event): AppState
  {
    match e
    case TypeKey(k) => s.(apiKey := k)
    case SelectFile => BeginStep(s).next
    case Settle(reply) => FinishStep(s, ExtractMedicalData(s.apiKey, reply), FallbackMessage)
    case ClickReset => ResetStep(s)
  }

  /** The state after a sequence of events from the initial one, or None
      when some event is not offered at its turn. */
  function Run(s: AppState, es: seq<Event>): Option<AppState>
    decreases es
  {
    if es == [] then Some(s)
    else if Enabled(s, es[0]) then Run(Step(s, es[0]), es[1..])
    else None
  }

  // ---------------------------------------------------------------------
  // Properties

  /** A blank key (empty after trimming) gives ERROR with the request for a
      key, makes no call and leaves data and key alone; any other key moves
      to PROCESSING with data and message cleared, and the call receives
      the key untrimmed. */
  lemma BeginOutcome(s: AppState)
    ensures var b := BeginStep(s);
      (b.call.None? <==> AllWhitespace(s.apiKey))
      && (b.call.None? ==> b.next == AppState(Error, s.extractedData, Some(MissingKeyMessage), s.apiKey))
      && (b.call.Some? ==> b.next == AppState(Processing, None, None, s.apiKey) && b.call.value == s.apiKey)
  {
    TrimEmptyIffBlank(s.apiKey);
  }

  /** A key of spaces passes the upload gate but is refused by the handler,
      and the extraction is not called. */
  lemma BlankKeyPassesGate(s: AppState)
    requires UploadPanelShown(s) && s.apiKey != "" && AllWhitespace(s.apiKey)
    ensures UploadEnabled(s)
    ensures BeginStep(s).call.None? && BeginStep(s).next.status == Error
    ensures BeginStep(s).next.errorMsg == Some(MissingKeyMessage)
  {
    TrimEmptyIffBlank(s.apiKey);
  }

  /** Through the service, a file selection with a usable key ends in
      COMPLETE with the parsed record or in ERROR with the service's generic
      message: the fallback text and the missing-key message of the service
      are never shown. */
  lemma FileSelectWithService(s: AppState, reply: Reply)
    requires !AllWhitespace(s.apiKey)
    ensures var t := FileSelectStep(s, reply);
      (reply.Parsed? ==> t == AppState(Complete, Some(reply.data), None, s.apiKey))
      && (!reply.Parsed? ==> t == AppState(Error, None, Some(GenericError), s.apiKey))
  {
    BeginOutcome(s);
    ExtractionOutcome(s.apiKey, reply);
  }

  /** Selecting a file where the upload panel is shown keeps the state
      consistent. */
  lemma BeginConsistent(s: AppState)
    requires Consistent(s) && UploadPanelShown(s)
    ensures Consistent(BeginStep(s).next)
  {
    BeginOutcome(s);
  }

  /** What every reachable state satisfies: it is consistent, its error
      message is the request for a key or the service's generic message,
      and while PROCESSING the key (which the key field cannot change then,
      and which is the key the extraction received) is not empty. */
  predicate Inv(s: AppState)
  {
    Consistent(s)
    && (s.errorMsg.Some? ==> s.errorMsg.value == MissingKeyMessage || s.errorMsg.value == GenericError)
    && (s.status == Processing ==> s.apiKey != "")
  }

  /** Every offered event keeps the invariant. */
  lemma StepInv(s: AppState, e: Event)
    requires Inv(s) && Enabled(s, e)
    ensures Inv(Step(s, e))
  {
    match e
    case TypeKey(_) =>
    case SelectFile =>
      BeginConsistent(s);
    case Settle(reply) =>
      ExtractionOutcome(s.apiKey, reply);
      FinishFromProcessing(s, ExtractMedicalData(s.apiKey, reply), FallbackMessage);
    case ClickReset =>
      ResetClears(s);
  }

  lemma {:induction false} RunInv(s: AppState, es: seq<Event>)
    requires Inv(s)
    ensures Run(s, es).Some? ==> Inv(Run(s, es).value)
    decreases es
  {
    if es != [] && Enabled(s, es[0]) {
      StepInv(s, es[0]);
      RunInv(Step(s, es[0]), es[1..]);
    }
  }

  /** In every reachable state COMPLETE holds data and no other status
      does, ERROR is exactly the status with a message, and that message is
      the request for a key or the service's generic message: the fallback
      text is never shown. */
  lemma ReachableInv(es: seq<Event>)
    ensures Run(Initial(), es).Some? ==> Consistent(Run(Initial(), es).value)
    ensures Run(Initial(), es).Some? && Run(Initial(), es).value.errorMsg.Some? ==>
      Run(Initial(), es).value.errorMsg.value in {MissingKeyMessage, GenericError}
  {
    RunInv(Initial(), es);
  }

  /** The whole handler, run where the upload box is enabled, is the
      selection followed by the reply, and keeps the invariant. */
  lemma FileSelectKeepsInv(s: AppState, reply: Reply)
    requires Inv(s) && UploadEnabled(s)
    ensures BeginStep(s).call.None? ==> FileSelectStep(s, reply) == Step(s, SelectFile)
    ensures BeginStep(s).call.Some? ==> FileSelectStep(s, reply) == Step(Step(s, SelectFile), Settle(reply))
    ensures Inv(FileSelectStep(s, reply))
  {
    StepInv(s, SelectFile);
    var t := Step(s, SelectFile);
    BeginOutcome(s);
    if BeginStep(s).call.Some? {
      StepInv(t, Settle(reply));
    }
  }

  /** In a consistent state the page shows exactly one of the upload panel,
      the progress view and the results, and it shows the results exactly
      in COMPLETE. */
  lemma OneViewAtATime(s: AppState)
    requires Consistent(s)
    ensures UploadPanelShown(s) || s.status == Processing || ResultsShown(s)
    ensures ResultsShown(s) <==> s.status == Complete
    ensures !(UploadPanelShown(s) && ResultsShown(s))
  {
  }

  // ---------------------------------------------------------------------
  // The component's state, updated in place by its handlers

  class App {
    var status: AppStatus
    var extractedData: Option<ExtractedMedicalData>
    var errorMsg: Option<string>
    var apiKey: string

    function State(): AppState
      reads this
    {
      AppState(status, extractedData, errorMsg, apiKey)
    }

    constructor ()
      ensures State() == Initial()
    {
      status := Idle;
      extractedData := None;
      errorMsg := None;
      apiKey := "";
    }

    /** The key field's change handler. */
    method SetApiKey(key: string)
      modifies this
      ensures State() == Step(old(State()), TypeKey(key))
    {
      apiKey := key;
    }

    /** `handleFileSelect` up to the `await`: returns the key the
        extraction is called with, or None after the early return. */
    method BeginFileSelect() returns (call: Option<string>)
      modifies this
      ensures State() == BeginStep(old(State())).next
      ensures call == BeginStep(old(State())).call
    {
      if Trim(apiKey) == "" {
        errorMsg := Some(MissingKeyMessage);
        status := Error;
        return None;
      }
      status := Processing;
      errorMsg := None;
      extractedData := None;
      call := Some(apiKey);
    }

    /** `handleFileSelect` after the `await` settles. */
    method FinishFileSelect(outcome: Result<ExtractedMedicalData, string>)
      modifies this
      ensures State() == FinishStep(old(State()), outcome, FallbackMessage)
    {
      match outcome {
        case Ok(data) =>
          extractedData := Some(data);
          status := Complete;
        case Err(message) =>
          errorMsg := Some(if message != "" then message else FallbackMessage);
          status := Error;
      }
    }

    /** The whole handler, with the extraction service in between. */
    method HandleFileSelect(reply: Reply)
      modifies this
      ensures State() == FileSelectStep(old(State()), reply)
    {
      var call := BeginFileSelect();
      if call.Some? {
        var outcome := ExtractMedicalData(call.value, reply);
        FinishFileSelect(outcome);
      }
    }

    method HandleReset()
      modifies this
      ensures State() == ResetStep(old(State()))
    {
      status := Idle;
      extractedData := None;
      errorMsg := None;
    }
  }
}
