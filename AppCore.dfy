/** The application state both versions of the app keep, and the steps
    they share: settling an extraction and resetting. */
module AppCore {
  import opened Wrappers
  import opened Types

  /** The four state variables of the app component. */
  datatype AppState = AppState(
    status: AppStatus,
    extractedData: Option<ExtractedMedicalData>,
    errorMsg: Option<string>,
    apiKey: string)

  /** `err.message || fallback` */
  function ErrorText(message: string, fallback: string): (r: string)
    ensures r == message || r == fallback
    ensures message != "" ==> r == message
    ensures fallback != "" ==> r != ""
  {
    if message != "" then message else fallback
  }

  /** The second half of the file handler, once the extraction settles:
      the data and COMPLETE on success, the error text and ERROR on
      failure. */
  function FinishStep(s: AppState, outcome: Result<ExtractedMedicalData, string>, fallback: string): AppState
  {
    match outcome
    case Ok(d) => s.(extractedData := Some(d), status := Complete)
    case Err(m) => s.(errorMsg := Some(ErrorText(m, fallback)), status := Error)
  }

  /** `handleReset()` */
  function ResetStep(s: AppState): AppState
  {
    s.(status := Idle, extractedData := None, errorMsg := None)
  }

  /** What every reachable state satisfies: data is held exactly in
      COMPLETE, an error message exactly in ERROR, and that message is never
      empty. */
  predicate Consistent(s: AppState)
  {
    (s.status == Complete <==> s.extractedData.Some?)
    && (s.status == Error <==> s.errorMsg.Some?)
    && (s.errorMsg.Some? ==> s.errorMsg.value != "")
  }

  /** Settling a PROCESSING state with no data and no message gives a
      consistent state, whatever the outcome; on success the data is the
      returned record, on failure the message is the error's own or the
      fallback. The key is kept. */
  lemma FinishFromProcessing(s: AppState, outcome: Result<ExtractedMedicalData, string>, fallback: string)
    requires s.status == Processing && s.extractedData.None? && s.errorMsg.None?
    requires fallback != ""
    ensures Consistent(FinishStep(s, outcome, fallback))
    ensures FinishStep(s, outcome, fallback).apiKey == s.apiKey
    ensures outcome.Ok? ==> FinishStep(s, outcome, fallback).status == Complete
                            && FinishStep(s, outcome, fallback).extractedData == Some(outcome.value)
    ensures outcome.Err? ==> FinishStep(s, outcome, fallback).status == Error
                             && FinishStep(s, outcome, fallback).extractedData.None?
                             && FinishStep(s, outcome, fallback).errorMsg ==
                                  Some(if outcome.error != "" then outcome.error else fallback)
  {
  }

  /** Reset always yields the initial-looking IDLE state with the same key. */
  lemma ResetClears(s: AppState)
    ensures Consistent(ResetStep(s))
    ensures ResetStep(s) == AppState(Idle, None, None, s.apiKey)
  {
  }
}
