/**
 * The report document and its parts (`lib/mock-report-data.ts`), and the two
 * colour helpers every card uses: the confidence tier and the status colour.
 * Numbers that are only ever compared (confidence, measured values, normal
 * ranges) are `real`; strings are `string`; optional properties are `Option`.
 */
module ReportData {
  import opened Wrappers

  /** `AIFinding['status']`; a diagnosis uses the same names except `Rejected`. */
  datatype Status = Pending | Accepted | Rejected | Edited

  /** A measurement quoted verbatim in a finding's text, with its normal range `[normalLow, normalHigh]`. */
  datatype AbnormalValue = AbnormalValue(
    text: string,
    value: real,
    unit: string,
    normalLow: real,
    normalHigh: real)

  /** The audit record of the last regeneration request. */
  datatype RegenerationContext = RegenerationContext(textContext: string, imageIds: seq<string>, timestamp: string)

  /** `AIFinding`. */
  datatype Finding = Finding(
    id: string,
    organ: string,
    confidence: real,
    originalText: string,
    currentText: string,
    isEdited: bool,
    editedBy: Option<string>,
    editedAt: Option<string>,
    status: Status,
    linkedImageId: string,
    abnormalValues: Option<seq<AbnormalValue>>,
    regenerationContext: Option<RegenerationContext>)

  /** `Omit<AIFinding, 'id'>`: what the add dialog hands to the page, which then assigns the id. */
  datatype FindingDraft = FindingDraft(
    organ: string,
    confidence: real,
    originalText: string,
    currentText: string,
    isEdited: bool,
    editedBy: Option<string>,
    editedAt: Option<string>,
    status: Status,
    linkedImageId: string,
    abnormalValues: Option<seq<AbnormalValue>>,
    regenerationContext: Option<RegenerationContext>)

  /** `{ ...draft, id }`: the given id, and every other field as the draft has it. */
  function WithId(d: FindingDraft, id: string): (f: Finding)
    ensures f.id == id
    ensures f.organ == d.organ && f.confidence == d.confidence
    ensures f.originalText == d.originalText && f.currentText == d.currentText && f.isEdited == d.isEdited
    ensures f.editedBy == d.editedBy && f.editedAt == d.editedAt && f.status == d.status
    ensures f.linkedImageId == d.linkedImageId && f.abnormalValues == d.abnormalValues
    ensures f.regenerationContext == d.regenerationContext
  {
    Finding(id, d.organ, d.confidence, d.originalText, d.currentText, d.isEdited, d.editedBy,
            d.editedAt, d.status, d.linkedImageId, d.abnormalValues, d.regenerationContext)
  }

  datatype PatientInfo = PatientInfo(
    name: string,
    species: string,
    sex: string,
    veterinarian: string,
    studyType: string,
    date: string,
    tutor: string,
    breed: string,
    age: string)

  /** `Diagnosis`; its status is never `Rejected` (see `DiagnosisStatusOk`). */
  datatype Diagnosis = Diagnosis(
    confidence: real,
    items: seq<string>,
    status: Status,
    originalItems: Option<seq<string>>,
    editedBy: Option<string>,
    editedAt: Option<string>)

  /** The diagnosis status is one of `'pending' | 'accepted' | 'edited'`. */
  predicate DiagnosisStatusOk(d: Diagnosis)
  {
    d.status != Rejected
  }

  datatype ImageKind = Ultrasound | Xray

  datatype StudyImage = StudyImage(id: string, url: string, kind: ImageKind, metadata: string)

  datatype Report = Report(
    id: string,
    patientInfo: PatientInfo,
    diagnosis: Diagnosis,
    findings: seq<Finding>,
    images: seq<StudyImage>)

  /** The name both editors sign a manual edit with (`finding-card.tsx` and `diagnosis-section.tsx`). */
  const EditorName: string := "Dr. Usuario"

  /** The colour families the helpers choose between; the Tailwind class names are presentation. */
  datatype Tone = Emerald | Amber | Red | Blue

  /** The order of the confidence tiers, lowest first. */
  function TierRank(t: Tone): nat
  {
    match t
    case Red => 0
    case Amber => 1
    case Emerald => 2
    case Blue => 3
  }

  /** `getConfidenceColor`: emerald from 0.9 up, amber from 0.6 up, red below. */
  function ConfidenceTone(confidence: real): (t: Tone)
    ensures t != Blue
    ensures t == Emerald <==> confidence >= 0.9
    ensures t == Amber <==> 0.6 <= confidence < 0.9
    ensures t == Red <==> confidence < 0.6
  {
    if confidence >= 0.9 then Emerald
    else if confidence >= 0.6 then Amber
    else Red
  }

  /** A higher confidence never lands in a lower tier. */
  lemma ConfidenceToneMonotone(c1: real, c2: real)
    requires c1 <= c2
    ensures TierRank(ConfidenceTone(c1)) <= TierRank(ConfidenceTone(c2))
  {
  }

  /** `getStatusColor`: total over the four statuses, pending falling to the default branch. */
  function StatusTone(s: Status): (t: Tone)
    ensures t == Emerald <==> s == Accepted
    ensures t == Blue <==> s == Edited
    ensures t == Red <==> s == Rejected
    ensures t == Amber <==> s == Pending
  {
    match s
    case Accepted => Emerald
    case Edited => Blue
    case Rejected => Red
    case _ => Amber
  }
}
