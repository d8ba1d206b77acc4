/** The record the extraction returns and the application's status. */
module Types {
  import opened Wrappers

  /** Every field is optional: the model may leave any of them out. */
  datatype ExtractedMedicalData = ExtractedMedicalData(
    patientName: Option<string>,
    age: Option<string>,
    sex: Option<string>,
    diagnosis: Option<string>,
    prescription: Option<seq<string>>,
    procedures: Option<seq<string>>,
    medicalHistory: Option<seq<string>>,
    labResults: Option<seq<string>>,
    doctorNotes: Option<string>,
    reportDate: Option<string>,
    rawTextSummary: Option<string>)

  datatype AppStatus = Idle | Processing | Complete | Error
}
