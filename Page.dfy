/**
 * The report page (`app/page.tsx`): the single `report` state cell and the four
 * handlers that compute the next report. Each handler replaces the report
 * wholesale with a spread, so each is a function from the old report (and the
 * handler's arguments) to the new one.
 *
 * `Partial<AIFinding>` and `Partial<Diagnosis>` are records of `Option` fields:
 * `Some` overrides, `None` keeps. A property that is itself optional is an
 * `Option<Option<...>>`, because spreading `{ k: undefined }` does overwrite `k`.
 */
module Page {
  import opened Wrappers
  import opened Seqs
  import opened Text
  import opened ReportData

  /** `Partial<AIFinding>`. */
  datatype FindingPatch = FindingPatch(
    id: Option<string>,
    organ: Option<string>,
    confidence: Option<real>,
    originalText: Option<string>,
    currentText: Option<string>,
    isEdited: Option<bool>,
    editedBy: Option<Option<string>>,
    editedAt: Option<Option<string>>,
    status: Option<Status>,
    linkedImageId: Option<string>,
    abnormalValues: Option<Option<seq<AbnormalValue>>>,
    regenerationContext: Option<Option<RegenerationContext>>)

  /** `{}`: the patch that names no property. */
  function NoFindingChanges(): FindingPatch
  {
    FindingPatch(None, None, None, None, None, None, None, None, None, None, None, None)
  }

  /** `{ ...finding, ...updates }`: every property the patch names is taken from it, every other from the finding. */
  function MergeFinding(f: Finding, p: FindingPatch): (g: Finding)
    ensures p.id.None? ==> g.id == f.id
    ensures p.id.Some? ==> g.id == p.id.value
    ensures p.originalText.None? ==> g.originalText == f.originalText
    ensures p.currentText.None? ==> g.currentText == f.currentText
    ensures p.confidence.None? ==> g.confidence == f.confidence
    ensures p.status.Some? ==> g.status == p.status.value
  {
    Finding(
      p.id.GetOr(f.id),
      p.organ.GetOr(f.organ),
      p.confidence.GetOr(f.confidence),
      p.originalText.GetOr(f.originalText),
      p.currentText.GetOr(f.currentText),
      p.isEdited.GetOr(f.isEdited),
      p.editedBy.GetOr(f.editedBy),
      p.editedAt.GetOr(f.editedAt),
      p.status.GetOr(f.status),
      p.linkedImageId.GetOr(f.linkedImageId),
      p.abnormalValues.GetOr(f.abnormalValues),
      p.regenerationContext.GetOr(f.regenerationContext))
  }

  /** `{ ...p, ...q }`: the later patch wins wherever both name a property. */
  function ThenFinding(p: FindingPatch, q: FindingPatch): FindingPatch
  {
    FindingPatch(
      if q.id.Some? then q.id else p.id,
      if q.organ.Some? then q.organ else p.organ,
      if q.confidence.Some? then q.confidence else p.confidence,
      if q.originalText.Some? then q.originalText else p.originalText,
      if q.currentText.Some? then q.currentText else p.currentText,
      if q.isEdited.Some? then q.isEdited else p.isEdited,
      if q.editedBy.Some? then q.editedBy else p.editedBy,
      if q.editedAt.Some? then q.editedAt else p.editedAt,
      if q.status.Some? then q.status else p.status,
      if q.linkedImageId.Some? then q.linkedImageId else p.linkedImageId,
      if q.abnormalValues.Some? then q.abnormalValues else p.abnormalValues,
      if q.regenerationContext.Some? then q.regenerationContext else p.regenerationContext)
  }

  /** An empty patch changes nothing. */
  lemma MergeNoFindingChanges(f: Finding)
    ensures MergeFinding(f, NoFindingChanges()) == f
  {
  }

  /** Applying the same patch twice is the same as applying it once. */
  lemma MergeFindingIdempotent(f: Finding, p: FindingPatch)
    ensures MergeFinding(MergeFinding(f, p), p) == MergeFinding(f, p)
  {
  }

  /** Two merges in a row are one merge of the combined patch. */
  lemma MergeFindingThen(f: Finding, p: FindingPatch, q: FindingPatch)
    ensures MergeFinding(MergeFinding(f, p), q) == MergeFinding(f, ThenFinding(p, q))
  {
  }

  /** `findings.map(finding => finding.id === id ? { ...finding, ...updates } : finding)`. */
  function MapUpdate(fs: seq<Finding>, id: string, p: FindingPatch): (r: seq<Finding>)
    ensures |r| == |fs|
    ensures forall k :: 0 <= k < |fs| && fs[k].id == id ==> r[k] == MergeFinding(fs[k], p)
    ensures forall k :: 0 <= k < |fs| && fs[k].id != id ==> r[k] == fs[k]
  {
    if fs == [] then []
    else [if fs[0].id == id then MergeFinding(fs[0], p) else fs[0]] + MapUpdate(fs[1..], id, p)
  }

  /** `handleUpdateFinding(id, updates)` (lines 22-28): only the findings change. */
  function UpdateFinding(r: Report, id: string, p: FindingPatch): (r': Report)
    ensures r'.id == r.id && r'.patientInfo == r.patientInfo
    ensures r'.diagnosis == r.diagnosis && r'.images == r.images
    ensures |r'.findings| == |r.findings|
    ensures forall k :: 0 <= k < |r.findings| ==>
              r'.findings[k] == if r.findings[k].id == id then MergeFinding(r.findings[k], p) else r.findings[k]
  {
    r.(findings := MapUpdate(r.findings, id, p))
  }

  /** An id no finding has leaves the report as it was; there is no error. */
  lemma UpdateAbsentId(r: Report, id: string, p: FindingPatch)
    requires forall k :: 0 <= k < |r.findings| ==> r.findings[k].id != id
    ensures UpdateFinding(r, id, p) == r
  {
    assert UpdateFinding(r, id, p).findings == r.findings;
  }

  /** An update with an empty patch leaves the report as it was. */
  lemma UpdateNoChanges(r: Report, id: string)
    ensures UpdateFinding(r, id, NoFindingChanges()) == r
  {
    var r' := UpdateFinding(r, id, NoFindingChanges());
    forall k | 0 <= k < |r.findings| ensures r'.findings[k] == r.findings[k] {
      MergeNoFindingChanges(r.findings[k]);
    }
    assert r'.findings == r.findings;
  }

  /** `Partial<Diagnosis>`. */
  datatype DiagnosisPatch = DiagnosisPatch(
    confidence: Option<real>,
    items: Option<seq<string>>,
    status: Option<Status>,
    originalItems: Option<Option<seq<string>>>,
    editedBy: Option<Option<string>>,
    editedAt: Option<Option<string>>)

  /** `{ ...prev.diagnosis, ...updates }`. */
  function MergeDiagnosis(d: Diagnosis, p: DiagnosisPatch): (e: Diagnosis)
    ensures p.status.None? ==> e.status == d.status
    ensures p.status.Some? ==> e.status == p.status.value
    ensures p.items.None? ==> e.items == d.items
    ensures p.originalItems.None? ==> e.originalItems == d.originalItems
  {
    Diagnosis(
      p.confidence.GetOr(d.confidence),
      p.items.GetOr(d.items),
      p.status.GetOr(d.status),
      p.originalItems.GetOr(d.originalItems),
      p.editedBy.GetOr(d.editedBy),
      p.editedAt.GetOr(d.editedAt))
  }

  /** A diagnosis patch that sets no `rejected` status keeps the diagnosis status one of pending, accepted or edited. */
  lemma MergeDiagnosisStatusOk(d: Diagnosis, p: DiagnosisPatch)
    requires DiagnosisStatusOk(d)
    requires p.status != Some(Rejected)
    ensures DiagnosisStatusOk(MergeDiagnosis(d, p))
  {
  }

  /** Applying the same diagnosis patch twice is the same as applying it once. */
  lemma MergeDiagnosisIdempotent(d: Diagnosis, p: DiagnosisPatch)
    ensures MergeDiagnosis(MergeDiagnosis(d, p), p) == MergeDiagnosis(d, p)
  {
  }

  /** `handleUpdateDiagnosis(updates)` (lines 41-45): only the diagnosis changes. */
  function UpdateDiagnosis(r: Report, p: DiagnosisPatch): (r': Report)
    ensures r'.id == r.id && r'.patientInfo == r.patientInfo
    ensures r'.findings == r.findings && r'.images == r.images
    ensures r'.diagnosis == MergeDiagnosis(r.diagnosis, p)
  {
    r.(diagnosis := MergeDiagnosis(r.diagnosis, p))
  }

  /** `` `finding-manual-${Date.now()}` ``, the clock reading passed in as `now`. */
  function NewFindingId(now: nat): (id: string)
    ensures |id| > |"finding-manual-"| && id[..|"finding-manual-"|] == "finding-manual-"
  {
    "finding-manual-" + Decimal(now)
  }

  /** Two different clock readings never give the same id. */
  lemma NewFindingIdInjective(a: nat, b: nat)
    ensures NewFindingId(a) == NewFindingId(b) ==> a == b
  {
    if NewFindingId(a) == NewFindingId(b) {
      var n := |"finding-manual-"|;
      assert Decimal(a) == NewFindingId(a)[n..];
      assert Decimal(b) == NewFindingId(b)[n..];
      DecimalValue(a);
      DecimalValue(b);
    }
  }

  /** `handleAddFinding(newFinding)` (lines 59-68): the draft gets its id and goes at the end. */
  function AddFinding(r: Report, draft: FindingDraft, now: nat): (r': Report)
    ensures r'.id == r.id && r'.patientInfo == r.patientInfo
    ensures r'.diagnosis == r.diagnosis && r'.images == r.images
    ensures |r'.findings| == |r.findings| + 1
    ensures r'.findings[..|r.findings|] == r.findings
    ensures r'.findings[|r.findings|] == WithId(draft, NewFindingId(now))
  {
    r.(findings := r.findings + [WithId(draft, NewFindingId(now))])
  }

  /** `f => f.id !== id`. */
  function IdIsNot(id: string): Finding -> bool
  {
    (f: Finding) => f.id != id
  }

  /** `f => f.id === id`. */
  function IdIs(id: string): Finding -> bool
  {
    (f: Finding) => f.id == id
  }

  /** `handleDeleteFinding(id)` (lines 76-80): the findings with that id are filtered out, the rest keep their order. */
  function DeleteFinding(r: Report, id: string): (r': Report)
    ensures r'.id == r.id && r'.patientInfo == r.patientInfo
    ensures r'.diagnosis == r.diagnosis && r'.images == r.images
    ensures forall f :: f in r'.findings <==> f in r.findings && f.id != id
    ensures |r'.findings| <= |r.findings|
  {
    r.(findings := Filter(r.findings, IdIsNot(id)))
  }

  /** Exactly as many findings go as carry the id. */
  lemma DeleteCount(r: Report, id: string)
    ensures |DeleteFinding(r, id).findings| == |r.findings| - Count(r.findings, IdIs(id))
  {
    CountSplit(r.findings, IdIs(id), IdIsNot(id));
  }

  /** Deleting an id no finding has leaves the report as it was. */
  lemma DeleteAbsentId(r: Report, id: string)
    requires forall k :: 0 <= k < |r.findings| ==> r.findings[k].id != id
    ensures DeleteFinding(r, id) == r
  {
    FilterKeepsAll(r.findings, IdIsNot(id));
  }

  /** Deleting a freshly added finding by its new id gives the report back, when no older finding had that id. */
  lemma DeleteAfterAdd(r: Report, draft: FindingDraft, now: nat)
    requires forall k :: 0 <= k < |r.findings| ==> r.findings[k].id != NewFindingId(now)
    ensures DeleteFinding(AddFinding(r, draft, now), NewFindingId(now)) == r
  {
    var id := NewFindingId(now);
    var added := WithId(draft, id);
    FilterAppend(r.findings, [added], IdIsNot(id));
    FilterKeepsAll(r.findings, IdIsNot(id));
    FilterDropsAll([added], IdIsNot(id));
  }
}
