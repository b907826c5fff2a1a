/**
 * `ConfidenceBadge` (`components/report/confidence-badge.tsx`): which badge a
 * finding shows, decided by branch order over its confidence, status and
 * signature.
 */
module ConfidenceBadge {
  import opened Wrappers
  import opened Text
  import opened ReportData
  import opened FindingsSection

  /** The six badges; the AI ones are the three confidence tiers. */
  datatype BadgeKind = Validated | EditedBadge | Manual | AiHigh | AiMedium | AiLow
  {
    predicate IsAi()
    {
      this == AiHigh || this == AiMedium || this == AiLow
    }
  }

  /** `editedBy` as a JavaScript condition: present and non-empty. */
  predicate Signed(editedBy: Option<string>)
  {
    editedBy.Some? && editedBy.value != ""
  }

  /** `isManualEntry` (line 26): full confidence, accepted, and no signature containing `Dr.`. */
  predicate IsManualEntry(confidence: real, status: Status, editedBy: Option<string>)
  {
    confidence == 1.0 && status == Accepted && (editedBy.None? || !Contains(editedBy.value, "Dr."))
  }

  /** `getConfidenceBadge` (lines 89-112): the AI tier by the same thresholds as `getConfidenceColor`. */
  function AiTier(confidence: real): (k: BadgeKind)
    ensures k.IsAi()
    ensures k == AiHigh <==> ConfidenceTone(confidence) == Emerald
    ensures k == AiMedium <==> ConfidenceTone(confidence) == Amber
    ensures k == AiLow <==> ConfidenceTone(confidence) == Red
  {
    if confidence >= 0.9 then AiHigh
    else if confidence >= 0.6 then AiMedium
    else AiLow
  }

  /** The component (lines 26-130): the first branch that applies decides the badge. */
  function Badge(confidence: real, status: Status, editedBy: Option<string>): (k: BadgeKind)
    ensures k == Validated <==> status == Accepted && !IsManualEntry(confidence, status, editedBy)
    ensures k == EditedBadge <==> status == Edited && Signed(editedBy)
    ensures k == Manual <==> IsManualEntry(confidence, status, editedBy)
    ensures k.IsAi() <==> status != Accepted && !(status == Edited && Signed(editedBy))
    ensures k.IsAi() ==> k == AiTier(confidence)
  {
    var isManualEntry := IsManualEntry(confidence, status, editedBy);
    if status == Accepted && !isManualEntry then Validated
    else if status == Edited && Signed(editedBy) then EditedBadge
    else if isManualEntry then Manual
    else AiTier(confidence)
  }

  /** An accepted finding always shows Validated or Manual, never an AI tier. */
  lemma AcceptedIsNeverAi(confidence: real, editedBy: Option<string>)
    ensures Badge(confidence, Accepted, editedBy) in {Validated, Manual}
  {
  }

  /** A finding accepted after an edit is signed by `Dr. Usuario`, so even at full confidence it is Validated, not Manual. */
  lemma SignedAcceptedIsValidated(confidence: real)
    ensures Badge(confidence, Accepted, Some(EditorName)) == Validated
  {
    assert OccursAt(EditorName, "Dr.", 0);
  }

  /** A finding built by the add dialog (full confidence, accepted, unsigned) shows the Manual badge. */
  lemma DialogFindingIsManual(organ: string, text: string, linkToImage: bool, selectedImageId: Option<string>)
    requires NewFindingDraft(organ, text, linkToImage, selectedImageId).Some?
    ensures var d := NewFindingDraft(organ, text, linkToImage, selectedImageId).value;
      Badge(d.confidence, d.status, d.editedBy) == Manual
  {
  }
}
