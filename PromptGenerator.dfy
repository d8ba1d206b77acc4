/** The prompt text built from an extracted record: three fixed header
    lines and a section banner, one line per field that has a value, a
    closing banner and the fixed response requirements; missing parts are
    filtered out and the rest joined with newlines. */
module PromptGenerator {
  import opened Wrappers
  import opened Text
  import opened Types

  const Header: seq<string> := [
    "CONTEXT: I have extracted the following medical information from a document/report.",
    "ROLE: Act as a highly experienced clinical medical assistant and patient advocate.",
    "TASK: Analyze the provided data and generate a comprehensive care plan.",
    "\n--- EXTRACTED MEDICAL DATA ---"
  ]

  const Footer: seq<string> := [
    "------------------------------",
    "\nRESPONSE REQUIREMENTS:",
    "Please provide a structured response with the following sections:",
    "1. \U{2705} USAGE GUIDELINES: Detailed instructions for medications and treatments mentioned.",
    "2. \U{26A0}\U{FE0F} LIMITATIONS & CONTRAINDICATIONS: What to strictly avoid (foods, activities, drug interactions).",
    "3. \U{1F514} IMPORTANT SAFETY NOTES: Warning signs to watch for that require immediate medical attention.",
    "4. \U{1F4CB} CAREGIVER'S ACTION PLAN: A step-by-step daily checklist for the caregiver to ensure patient safety and recovery.",
    "5. \U{1F957} LIFESTYLE & DIETARY RECOMMENDATIONS: Supportive measures based on the diagnosis."
  ]

  /** `value ? `${heading}${value}` : null` for a string field. */
  function ScalarSlot(heading: string, value: Option<string>): Option<string>
  {
    if value.Some? && value.value != "" then Some(heading + value.value) else None
  }

  /** `list && list.length > 0 ? `${heading}${list.join(sep)}` : null`. */
  function ListSlot(heading: string, list: Option<seq<string>>, sep: string): Option<string>
  {
    if list.Some? && |list.value| > 0 then Some(heading + Join(list.value, sep)) else None
  }

  /** The ten field entries of the parts array, in the order written. */
  function FieldSlots(d: ExtractedMedicalData): seq<Option<string>>
  {
    [ ScalarSlot("Patient Name: ", d.patientName),
      ScalarSlot("Age: ", d.age),
      ScalarSlot("Sex: ", d.sex),
      ScalarSlot("Report Date: ", d.reportDate),
      ScalarSlot("Primary Diagnosis: ", d.diagnosis),
      ListSlot("Medications: ", d.prescription, ", "),
      ListSlot("Lab Results/Vitals: ", d.labResults, "; "),
      ListSlot("Procedures: ", d.procedures, ", "),
      ListSlot("Medical History: ", d.medicalHistory, ", "),
      ScalarSlot("Doctor Notes: ", d.doctorNotes) ]
  }

  function Lift(ss: seq<string>): seq<Option<string>>
  {
    seq(|ss|, i requires 0 <= i < |ss| => Some(ss[i]))
  }

  /** The parts array: fixed lines around the field entries. */
  function Parts(d: ExtractedMedicalData): seq<Option<string>>
  {
    Lift(Header) + FieldSlots(d) + Lift(Footer)
  }

  /** `parts.filter(Boolean)`: drops `null` and empty strings, keeps the
      order of the rest. */
  function FilterBoolean(ps: seq<Option<string>>): (r: seq<string>)
    ensures forall i :: 0 <= i < |r| ==> r[i] != "" && Some(r[i]) in ps
    ensures forall i :: 0 <= i < |ps| && ps[i].Some? && ps[i].value != "" ==> ps[i].value in r
  {
    if ps == [] then []
    else (if ps[0].Some? && ps[0].value != "" then [ps[0].value] else []) + FilterBoolean(ps[1..])
  }

  /** `generatePromptText()` */
  function GeneratePromptText(d: ExtractedMedicalData): string
  {
    Join(FilterBoolean(Parts(d)), "\n")
  }

  // ---------------------------------------------------------------------
  // A field-by-field description of the same prompt

  datatype Field =
    | PatientName | Age | Sex | ReportDate | Diagnosis
    | Medications | LabResults | Procedures | MedicalHistory | DoctorNotes

  const FieldOrder: seq<Field> :=
    [PatientName, Age, Sex, ReportDate, Diagnosis, Medications, LabResults, Procedures, MedicalHistory, DoctorNotes]

  predicate IsListField(f: Field)
  {
    f.Medications? || f.LabResults? || f.Procedures? || f.MedicalHistory?
  }

  /** The text in front of a field's value on its prompt line. */
  function Heading(f: Field): string
  {
    match f
    case PatientName => "Patient Name: "
    case Age => "Age: "
    case Sex => "Sex: "
    case ReportDate => "Report Date: "
    case Diagnosis => "Primary Diagnosis: "
    case Medications => "Medications: "
    case LabResults => "Lab Results/Vitals: "
    case Procedures => "Procedures: "
    case MedicalHistory => "Medical History: "
    case DoctorNotes => "Doctor Notes: "
  }

  /** Lab results are separated by semicolons, the other lists by commas. */
  function ListSeparator(f: Field): string
  {
    if f.LabResults? then "; " else ", "
  }

  function ScalarValue(d: ExtractedMedicalData, f: Field): Option<string>
    requires !IsListField(f)
  {
    match f
    case PatientName => d.patientName
    case Age => d.age
    case Sex => d.sex
    case ReportDate => d.reportDate
    case Diagnosis => d.diagnosis
    case DoctorNotes => d.doctorNotes
  }

  function ListValue(d: ExtractedMedicalData, f: Field): Option<seq<string>>
    requires IsListField(f)
  {
    match f
    case Medications => d.prescription
    case LabResults => d.labResults
    case Procedures => d.procedures
    case MedicalHistory => d.medicalHistory
  }

  /** A string field is present when it is a non-empty string, a list field
      when the list exists and has an element. */
  predicate Present(d: ExtractedMedicalData, f: Field)
  {
    if IsListField(f) then ListValue(d, f).Some? && |ListValue(d, f).value| > 0
    else ScalarValue(d, f).Some? && ScalarValue(d, f).value != ""
  }

  function FieldLine(d: ExtractedMedicalData, f: Field): string
    requires Present(d, f)
  {
    Heading(f) + (if IsListField(f) then Join(ListValue(d, f).value, ListSeparator(f)) else ScalarValue(d, f).value)
  }

  /** The lines of the present fields among `fs`, in the order of `fs`. */
  function PresentLines(d: ExtractedMedicalData, fs: seq<Field>): seq<string>
  {
    if fs == [] then []
    else (if Present(d, fs[0]) then [FieldLine(d, fs[0])] else []) + PresentLines(d, fs[1..])
  }

  function CountPresent(d: ExtractedMedicalData, fs: seq<Field>): nat
  {
    if fs == [] then 0 else (if Present(d, fs[0]) then 1 else 0) + CountPresent(d, fs[1..])
  }

  // ---------------------------------------------------------------------
  // Properties

  /** The parts entry for one field: its line when present, `null`
      otherwise. */
  function Slot(d: ExtractedMedicalData, f: Field): Option<string>
  {
    if Present(d, f) then Some(FieldLine(d, f)) else None
  }

  function Slots(d: ExtractedMedicalData, fs: seq<Field>): seq<Option<string>>
  {
    seq(|fs|, i requires 0 <= i < |fs| => Slot(d, fs[i]))
  }

  lemma ScalarSlotIsSlot(d: ExtractedMedicalData, f: Field, heading: string)
    requires !IsListField(f) && heading == Heading(f)
    ensures ScalarSlot(heading, ScalarValue(d, f)) == Slot(d, f)
  {
  }

  lemma ListSlotIsSlot(d: ExtractedMedicalData, f: Field, heading: string)
    requires IsListField(f) && heading == Heading(f)
    ensures ListSlot(heading, ListValue(d, f), ListSeparator(f)) == Slot(d, f)
  {
  }

  /** The field part of the parts array is the slot of each field in the
      fixed order. */
  lemma FieldSlotsAreSlots(d: ExtractedMedicalData)
    ensures FieldSlots(d) == Slots(d, FieldOrder)
  {
    FieldSlotsInOrder(d);
    SlotsOfFieldOrder(d);
  }

  /** The slots of the field order, listed one by one. */
  lemma SlotsOfFieldOrder(d: ExtractedMedicalData)
    ensures Slots(d, FieldOrder) ==
      [ Slot(d, PatientName), Slot(d, Age), Slot(d, Sex), Slot(d, ReportDate), Slot(d, Diagnosis),
        Slot(d, Medications), Slot(d, LabResults), Slot(d, Procedures), Slot(d, MedicalHistory),
        Slot(d, DoctorNotes) ]
  {
    var s := Slots(d, FieldOrder);
    TenElements(s);
  }

  /** A ten-element sequence is the display of its elements. */
  lemma TenElements<T>(s: seq<T>)
    requires |s| == 10
    ensures s == [s[0], s[1], s[2], s[3], s[4], s[5], s[6], s[7], s[8], s[9]]
  {
  }

  /** The prompt's slots are the fields' slots, one by one. */
  lemma FieldSlotsInOrder(d: ExtractedMedicalData)
    ensures FieldSlots(d) ==
      [ Slot(d, PatientName), Slot(d, Age), Slot(d, Sex), Slot(d, ReportDate), Slot(d, Diagnosis),
        Slot(d, Medications), Slot(d, LabResults), Slot(d, Procedures), Slot(d, MedicalHistory),
        Slot(d, DoctorNotes) ]
  {
    ScalarSlotIsSlot(d, PatientName, "Patient Name: ");
    ScalarSlotIsSlot(d, Age, "Age: ");
    ScalarSlotIsSlot(d, Sex, "Sex: ");
    ScalarSlotIsSlot(d, ReportDate, "Report Date: ");
    ScalarSlotIsSlot(d, Diagnosis, "Primary Diagnosis: ");
    ListSlotIsSlot(d, Medications, "Medications: ");
    ListSlotIsSlot(d, LabResults, "Lab Results/Vitals: ");
    ListSlotIsSlot(d, Procedures, "Procedures: ");
    ListSlotIsSlot(d, MedicalHistory, "Medical History: ");
    ScalarSlotIsSlot(d, DoctorNotes, "Doctor Notes: ");
  }

  /** Entry `i` of the field part is the line of the `i`-th field of the
      fixed order when that field is present, and `null` otherwise. */
  lemma FieldSlotsByField(d: ExtractedMedicalData)
    ensures |FieldSlots(d)| == |FieldOrder| == 10
    ensures forall i :: 0 <= i < 10 ==>
      (FieldSlots(d)[i].Some? <==> Present(d, FieldOrder[i]))
      && (FieldSlots(d)[i].Some? ==> FieldSlots(d)[i].value == FieldLine(d, FieldOrder[i]))
  {
    FieldSlotsAreSlots(d);
  }

  lemma {:induction false} FilterBooleanAppend(a: seq<Option<string>>, b: seq<Option<string>>)
    ensures FilterBoolean(a + b) == FilterBoolean(a) + FilterBoolean(b)
  {
    if a == [] {
      assert a + b == b;
    } else {
      assert (a + b)[0] == a[0];
      assert (a + b)[1..] == a[1..] + b;
      FilterBooleanAppend(a[1..], b);
    }
  }

  /** Fixed non-empty lines pass the filter unchanged. */
  lemma {:induction false} FilterBooleanLift(ss: seq<string>)
    requires forall i :: 0 <= i < |ss| ==> ss[i] != ""
    ensures FilterBoolean(Lift(ss)) == ss
  {
    if ss != [] {
      assert Lift(ss)[1..] == Lift(ss[1..]);
      FilterBooleanLift(ss[1..]);
      assert [ss[0]] + ss[1..] == ss;
    }
  }

  lemma {:induction false} FilterSlots(d: ExtractedMedicalData, fs: seq<Field>)
    ensures FilterBoolean(Slots(d, fs)) == PresentLines(d, fs)
  {
    if fs != [] {
      assert Slots(d, fs)[1..] == Slots(d, fs[1..]);
      FilterSlots(d, fs[1..]);
      if Present(d, fs[0]) {
        assert |FieldLine(d, fs[0])| > 0;
      }
    }
  }

  lemma FixedLinesNonEmpty()
    ensures forall i :: 0 <= i < |Header| ==> Header[i] != ""
    ensures forall i :: 0 <= i < |Footer| ==> Footer[i] != ""
  {
  }

  /** The lines of the prompt are the header, the present fields' lines in
      the fixed order, and the footer; no `null` entry survives. */
  lemma PromptLines(d: ExtractedMedicalData)
    ensures FilterBoolean(Parts(d)) == Header + PresentLines(d, FieldOrder) + Footer
  {
    var h, m, f := Lift(Header), FieldSlots(d), Lift(Footer);
    FieldSlotsAreSlots(d);
    FilterSlots(d, FieldOrder);
    FilterBooleanAppend(h + m, f);
    FilterBooleanAppend(h, m);
    FixedLinesNonEmpty();
    FilterBooleanLift(Header);
    FilterBooleanLift(Footer);
  }

  /** Position of a field in the fixed order. */
  function FieldIndex(f: Field): (i: nat)
    ensures i < |FieldOrder| && FieldOrder[i] == f
  {
    match f
    case PatientName => 0
    case Age => 1
    case Sex => 2
    case ReportDate => 3
    case Diagnosis => 4
    case Medications => 5
    case LabResults => 6
    case Procedures => 7
    case MedicalHistory => 8
    case DoctorNotes => 9
  }

  /** A present field's line is one of the prompt's lines. */
  lemma PresentFieldShown(d: ExtractedMedicalData, f: Field)
    requires Present(d, f)
    ensures FieldLine(d, f) in FilterBoolean(Parts(d))
  {
    FieldSlotsAreSlots(d);
    var i := FieldIndex(f);
    assert Parts(d)[4 + i] == FieldSlots(d)[i];
  }

  lemma {:induction false} PresentLinesCount(d: ExtractedMedicalData, fs: seq<Field>)
    ensures |PresentLines(d, fs)| == CountPresent(d, fs) <= |fs|
  {
    if fs != [] {
      PresentLinesCount(d, fs[1..]);
    }
  }

  /** The prompt has the twelve fixed lines and one line per present field. */
  lemma PromptLineCount(d: ExtractedMedicalData)
    ensures |FilterBoolean(Parts(d))| == 12 + CountPresent(d, FieldOrder)
  {
    PromptLines(d);
    PresentLinesCount(d, FieldOrder);
  }

  /** Joining three lists whose outer two are non-empty. */
  lemma JoinAround(h: seq<string>, m: seq<string>, f: seq<string>, sep: string)
    requires |h| > 0 && |f| > 0
    ensures m == [] ==> Join(h + m + f, sep) == Join(h, sep) + sep + Join(f, sep)
    ensures m != [] ==> Join(h + m + f, sep) == Join(h, sep) + sep + Join(m, sep) + sep + Join(f, sep)
  {
    if m == [] {
      assert h + m + f == h + f;
      JoinAppend(h, f, sep);
    } else {
      JoinAppend(h + m, f, sep);
      JoinAppend(h, m, sep);
    }
  }

  /** The text is the header, a newline, the field lines (when there are
      any) followed by a newline, and the footer. */
  lemma PromptTextLayout(d: ExtractedMedicalData)
    ensures PresentLines(d, FieldOrder) == [] ==>
      GeneratePromptText(d) == Join(Header, "\n") + "\n" + Join(Footer, "\n")
    ensures PresentLines(d, FieldOrder) != [] ==>
      GeneratePromptText(d) == Join(Header, "\n") + "\n" + Join(PresentLines(d, FieldOrder), "\n") + "\n" + Join(Footer, "\n")
  {
    PromptLines(d);
    JoinAround(Header, PresentLines(d, FieldOrder), Footer, "\n");
  }

  /** With no field present the prompt is exactly the twelve fixed lines. */
  lemma {:induction false} NoFieldsPrompt(d: ExtractedMedicalData)
    requires forall f :: !Present(d, f)
    ensures GeneratePromptText(d) == Join(Header + Footer, "\n")
  {
    assert PresentLines(d, FieldOrder) == [] by {
      NoPresentLines(d, FieldOrder);
    }
    PromptLines(d);
    assert Header + [] + Footer == Header + Footer;
  }

  lemma {:induction false} NoPresentLines(d: ExtractedMedicalData, fs: seq<Field>)
    requires forall f :: !Present(d, f)
    ensures PresentLines(d, fs) == []
  {
    if fs != [] {
      NoPresentLines(d, fs[1..]);
    }
  }

  /** The raw text summary is never part of the prompt. */
  lemma RawTextSummaryIgnored(d: ExtractedMedicalData, summary: Option<string>)
    ensures GeneratePromptText(d.(rawTextSummary := summary)) == GeneratePromptText(d)
  {
    assert FieldSlots(d.(rawTextSummary := summary)) == FieldSlots(d);
  }
}
