/** The extraction service as far as the application can observe it: the
    key check, and which error reaches the caller. The remote model call
    itself is an input: what it settles to is given as a `Reply`. */
module GeminiService {
  import opened Wrappers
  import opened Types

  const MissingKeyError: string := "API Key is missing. Please provide a valid API Key."
  const NoDataError: string := "No data returned from the model."
  const GenericError: string := "Failed to extract information. Please check your API Key and ensure the image is clear."

  /** How the model call settles: response text parsed to a record, an
      empty response text, or a thrown error (network, quota, rejected key,
      text that is not JSON) with its message. */
  datatype Reply = Parsed(data: ExtractedMedicalData) | NoText | Failed(message: string)

  /** The body of the `try` block: an empty response text is an error. */
  function CallModel(reply: Reply): Result<ExtractedMedicalData, string>
  {
    match reply
    case Parsed(d) => Ok(d)
    case NoText => Err(NoDataError)
    case Failed(m) => Err(m)
  }

  /** `extractMedicalData(base64, mimeType, apiKey)`: an empty key is
      refused before any call; every error raised during the call is
      replaced by the generic message. */
  function ExtractMedicalData(apiKey: string, reply: Reply): Result<ExtractedMedicalData, string>
  {
    if apiKey == "" then Err(MissingKeyError)
    else
      match CallModel(reply)
      case Ok(d) => Ok(d)
      case Err(_) => Err(GenericError)
  }

  /** Data comes back exactly when the key is non-empty and the reply
      parsed; the only errors the caller can see are the missing-key
      message (for an empty key) and the generic message (otherwise), so
      the "no data" message never escapes. */
  lemma ExtractionOutcome(apiKey: string, reply: Reply)
    ensures ExtractMedicalData(apiKey, reply).Ok? <==> apiKey != "" && reply.Parsed?
    ensures ExtractMedicalData(apiKey, reply).Ok? ==> ExtractMedicalData(apiKey, reply).value == reply.data
    ensures ExtractMedicalData(apiKey, reply).Err? ==>
      ExtractMedicalData(apiKey, reply).error == (if apiKey == "" then MissingKeyError else GenericError)
    ensures ExtractMedicalData(apiKey, reply) != Err(NoDataError)
  {
  }
}
