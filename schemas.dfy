/**
 * The records and the two closed enumerations of the API schema. Field
 * defaults are constructor parameter defaults, so that a record built without
 * a field gets the value the schema gives it.
 */
module Schemas {

  import opened Wrappers

  /** The kind of report. */
  datatype ReportType = LabTest | Radiology | Prescription | General {

    /** The enumeration's string value. */
    function Value(): string {
      match this
      case LabTest => "lab_test"
      case Radiology => "radiology"
      case Prescription => "prescription"
      case General => "general"
    }
  }

  /** `ReportType(s)`: the member whose value is exactly `s`, if there is one. */
  function ReportTypeFromValue(s: string): (r: Option<ReportType>)
    ensures r.Some? ==> r.value.Value() == s
  {
    if s == "lab_test" then Some(LabTest)
    else if s == "radiology" then Some(Radiology)
    else if s == "prescription" then Some(Prescription)
    else if s == "general" then Some(General)
    else None
  }

  /** The severity of a finding. */
  datatype SeverityLevel = Normal | Low | Medium | High | Critical {

    /** The enumeration's string value. */
    function Value(): string {
      match this
      case Normal => "normal"
      case Low => "low"
      case Medium => "medium"
      case High => "high"
      case Critical => "critical"
    }
  }

  /** `SeverityLevel(s)`: the member whose value is exactly `s`, if there is one. */
  function SeverityFromValue(s: string): (r: Option<SeverityLevel>)
    ensures r.Some? ==> r.value.Value() == s
  {
    if s == "normal" then Some(Normal)
    else if s == "low" then Some(Low)
    else if s == "medium" then Some(Medium)
    else if s == "high" then Some(High)
    else if s == "critical" then Some(Critical)
    else None
  }

  const ALL_REPORT_TYPES: seq<ReportType> := [LabTest, Radiology, Prescription, General]
  const ALL_SEVERITY_LEVELS: seq<SeverityLevel> := [Normal, Low, Medium, High, Critical]

  /** One measured parameter of a report. */
  datatype Finding = Finding(
    parameter: string,
    value: string,
    unit: Option<string> := None,
    referenceRange: Option<string> := None,
    status: SeverityLevel := Normal,
    interpretation: Option<string> := None)

  /** The structured result of analysing one report. */
  datatype AnalysisResponse = AnalysisResponse(
    fileId: string,
    summary: string,
    reportType: ReportType := General,
    findings: seq<Finding> := [],
    medicalTerms: seq<string> := [],
    rawText: Option<string> := None)

  /** One parameter that the simplification flags, explained for a patient. */
  datatype AbnormalityFlag = AbnormalityFlag(
    parameter: string,
    value: string,
    severity: SeverityLevel,
    explanation: string,
    recommendation: Option<string> := None)

  const DISCLAIMER: string :=
    "\U{26A0}\U{FE0F} DISCLAIMER: This AI-generated analysis is for informational purposes only. "
    + "It is NOT a substitute for professional medical advice, diagnosis, or treatment. "
    + "Always consult a qualified healthcare provider for medical decisions."

  /** The patient-facing version of an analysis. */
  datatype SimplifiedReport = SimplifiedReport(
    fileId: string,
    originalSummary: string,
    simplifiedSummary: string,
    abnormalities: seq<AbnormalityFlag> := [],
    followupQuestions: seq<string> := [],
    disclaimer: string := DISCLAIMER)

  /** The reply to an upload. */
  datatype UploadResponse = UploadResponse(
    fileId: string,
    filename: string,
    fileType: string,
    fileSizeBytes: nat,
    extractedText: Option<string> := None,
    message: string := "File uploaded successfully")

  /** Each enumeration converts to its string value and back, and no two members share a value. */
  lemma {:induction false} EnumValuesRoundTrip()
    ensures forall t: ReportType :: ReportTypeFromValue(t.Value()) == Some(t)
    ensures forall l: SeverityLevel :: SeverityFromValue(l.Value()) == Some(l)
    ensures forall s: string, t: ReportType :: ReportTypeFromValue(s) == Some(t) <==> s == t.Value()
    ensures forall s: string, l: SeverityLevel :: SeverityFromValue(s) == Some(l) <==> s == l.Value()
  {
  }

  /** The enumerations have exactly the listed members, with these string values. */
  lemma EnumMembers()
    ensures forall t: ReportType :: t in ALL_REPORT_TYPES
    ensures forall l: SeverityLevel :: l in ALL_SEVERITY_LEVELS
    ensures |ALL_REPORT_TYPES| == 4 && |ALL_SEVERITY_LEVELS| == 5
    ensures forall i, j | 0 <= i < j < 4 :: ALL_REPORT_TYPES[i] != ALL_REPORT_TYPES[j]
    ensures forall i, j | 0 <= i < j < 5 :: ALL_SEVERITY_LEVELS[i] != ALL_SEVERITY_LEVELS[j]
    ensures seq(4, i requires 0 <= i < 4 => ALL_REPORT_TYPES[i].Value())
         == ["lab_test", "radiology", "prescription", "general"]
    ensures seq(5, i requires 0 <= i < 5 => ALL_SEVERITY_LEVELS[i].Value())
         == ["normal", "low", "medium", "high", "critical"]
  {
    forall t: ReportType ensures t in ALL_REPORT_TYPES {
      match t
      case LabTest => assert ALL_REPORT_TYPES[0] == t;
      case Radiology => assert ALL_REPORT_TYPES[1] == t;
      case Prescription => assert ALL_REPORT_TYPES[2] == t;
      case General => assert ALL_REPORT_TYPES[3] == t;
    }
    forall l: SeverityLevel ensures l in ALL_SEVERITY_LEVELS {
      match l
      case Normal => assert ALL_SEVERITY_LEVELS[0] == l;
      case Low => assert ALL_SEVERITY_LEVELS[1] == l;
      case Medium => assert ALL_SEVERITY_LEVELS[2] == l;
      case High => assert ALL_SEVERITY_LEVELS[3] == l;
      case Critical => assert ALL_SEVERITY_LEVELS[4] == l;
    }
  }

  /** The fields a record gets when it is built without them. */
  lemma SchemaDefaults(p: string, v: string, id: string, s: string, l: SeverityLevel, e: string, o: string)
    ensures var f := Finding(p, v);
      f.unit == None && f.referenceRange == None && f.status == Normal && f.interpretation == None
    ensures var a := AnalysisResponse(fileId := id, summary := s);
      a.reportType == General && a.findings == [] && a.medicalTerms == [] && a.rawText == None
    ensures AbnormalityFlag(p, v, l, e).recommendation == None
    ensures var r := SimplifiedReport(id, o, s);
      r.abnormalities == [] && r.followupQuestions == [] && r.disclaimer == DISCLAIMER
  {
  }
}
