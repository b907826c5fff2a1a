/**
 * `FindingCard` (`components/report/finding-card.tsx`): the patches a finding
 * card sends to the page for accept, edit and regenerate, the regenerated
 * text, the background choice, and the card's three flags.
 *
 * The clock readings the source formats with `toLocaleString` and
 * `toISOString` are passed in as strings. Regeneration is split into the step
 * that raises the busy flag and the step that builds the patch and lowers it;
 * the delay between them is not modelled.
 */
module FindingCard {
  import opened Wrappers
  import opened Text
  import opened ReportData
  import opened Page

  /** `handleAccept` (lines 39-41): `{ status: 'accepted' }`. */
  function AcceptPatch(): (p: FindingPatch)
    ensures p.status == Some(Accepted)
  {
    NoFindingChanges().(status := Some(Accepted))
  }

  /** Accepting changes the status and nothing else: text, original text and confidence stay. */
  lemma AcceptOnlyStatus(f: Finding)
    ensures MergeFinding(f, AcceptPatch()) == f.(status := Accepted)
  {
  }

  /**
   * `handleSave(newText)` (lines 47-62). A text that differs from the original
   * marks the finding edited and signs it with `EditorName` at `now`; a text
   * equal to the original keeps the previous status and signature.
   */
  function EditPatch(f: Finding, newText: string, now: string): (p: FindingPatch)
    ensures p.id.None? && p.originalText.None? && p.confidence.None?
    ensures p.currentText == Some(newText)
    ensures p.isEdited == Some(newText != f.originalText)
  {
    var changed := newText != f.originalText;
    NoFindingChanges().(
      currentText := Some(newText),
      isEdited := Some(changed),
      status := Some(if changed then Edited else f.status),
      editedBy := Some(if changed then Some(EditorName) else f.editedBy),
      editedAt := Some(if changed then Some(now) else f.editedAt))
  }

  /** Right after an edit, the finding is marked edited exactly when its text differs from the original. */
  lemma EditMarksDifference(f: Finding, newText: string, now: string)
    ensures var g := MergeFinding(f, EditPatch(f, newText, now));
      g.currentText == newText && g.originalText == f.originalText && g.id == f.id
      && (g.isEdited <==> g.currentText != g.originalText)
  {
  }

  /** An edit that changes the text sets status `edited` and signs it. */
  lemma EditThatChanges(f: Finding, newText: string, now: string)
    requires newText != f.originalText
    ensures MergeFinding(f, EditPatch(f, newText, now))
         == f.(currentText := newText, isEdited := true, status := Edited,
               editedBy := Some(EditorName), editedAt := Some(now))
  {
  }

  /** An edit back to exactly the original text keeps the status and the previous signature. */
  lemma EditBackToOriginal(f: Finding, now: string)
    ensures MergeFinding(f, EditPatch(f, f.originalText, now))
         == f.(currentText := f.originalText, isEdited := false)
  {
  }

  /** `Math.min(50, |s|)`, the length `substring(0, 50)` keeps. */
  function Min(a: int, b: int): int
  {
    if a <= b then a else b
  }

  const RegeneratedMark: string := " [Regenerado por AI]"
  const ConsideringLead: string := " Considerando: "

  /** The sentence naming how many images were chosen, as line 89 builds it. */
  function ImagesNote(imageCount: nat): string
  {
    " Analizadas " + Decimal(imageCount) + " im\U{00C3}\U{00A1}genes adicionales."
  }

  /**
   * The mock regenerated text (lines 82-90): the original text, the AI mark,
   * then at most 50 characters of a non-empty context, then the number of
   * images when at least one was chosen. (The source spells the last word with
   * the two characters U+00C3 U+00A1 where an accented `a` was meant.)
   */
  function RegeneratedText(original: string, context: string, imageCount: nat): (t: string)
    ensures |t| >= |original| + |RegeneratedMark| > |original| && t[..|original|] == original
    ensures t[|original|..|original| + |RegeneratedMark|] == RegeneratedMark
  {
    var marked := original + RegeneratedMark;
    var withContext := if context != "" then marked + ConsideringLead + context[..Min(50, |context|)] + "..." else marked;
    var withImages := if imageCount > 0 then withContext + ImagesNote(imageCount) else withContext;
    assert withImages[..|marked|] == marked;
    withImages
  }

  /**
   * How the regenerated text ends: with the image sentence when images were
   * chosen; otherwise with the `...` closing the quoted context, or with the AI
   * mark when there is no context either.
   */
  lemma RegeneratedTextEnding(original: string, context: string, imageCount: nat)
    ensures var t := RegeneratedText(original, context, imageCount);
      imageCount > 0 ==> |t| >= |ImagesNote(imageCount)| && t[|t| - |ImagesNote(imageCount)|..] == ImagesNote(imageCount)
    ensures var t := RegeneratedText(original, context, imageCount);
      imageCount == 0 && context != "" ==> |t| >= 3 && t[|t| - 3..] == "..."
    ensures var t := RegeneratedText(original, context, imageCount);
      imageCount == 0 && context == "" ==> t[|t| - |RegeneratedMark|..] == RegeneratedMark
  {
  }

  /** With no context and no images, only the AI mark is appended. */
  lemma RegeneratedTextBare(original: string)
    ensures RegeneratedText(original, "", 0) == original + RegeneratedMark
  {
  }

  /** A non-empty context shows up, cut to its first 50 characters, right after the lead-in that follows the mark. */
  lemma RegeneratedTextQuotesContext(original: string, context: string, imageCount: nat)
    requires context != ""
    ensures OccursAt(RegeneratedText(original, context, imageCount),
                     ConsideringLead + context[..Min(50, |context|)],
                     |original| + |RegeneratedMark|)
  {
    var t := RegeneratedText(original, context, imageCount);
    var quoted := ConsideringLead + context[..Min(50, |context|)];
    var k := |original| + |RegeneratedMark|;
    var withContext := original + RegeneratedMark + quoted + "...";
    assert withContext == original + RegeneratedMark + ConsideringLead + context[..Min(50, |context|)] + "...";
    assert t[..|withContext|] == withContext;
    assert withContext[k..k + |quoted|] == quoted;
  }

  /** `handleRegenerate`'s patch (lines 92-102): the new text, not edited, pending, and the request recorded. */
  function RegeneratePatch(text: string, context: string, imageIds: seq<string>, timestamp: string): (p: FindingPatch)
    ensures p.id.None? && p.originalText.None? && p.confidence.None?
    ensures p.currentText == Some(text)
    ensures p.isEdited == Some(false) && p.status == Some(Pending)
    ensures p.regenerationContext == Some(Some(RegenerationContext(context, imageIds, timestamp)))
  {
    NoFindingChanges().(
      currentText := Some(text),
      isEdited := Some(false),
      status := Some(Pending),
      regenerationContext := Some(Some(RegenerationContext(context, imageIds, timestamp))))
  }

  /**
   * After a regeneration the text is the regenerated one and differs from the
   * original while the finding is not marked edited; original text, id and
   * confidence are kept.
   */
  lemma RegenerateLeavesUnmarkedDifference(f: Finding, context: string, imageIds: seq<string>, timestamp: string)
    ensures var g := MergeFinding(f, RegeneratePatch(RegeneratedText(f.originalText, context, |imageIds|), context, imageIds, timestamp));
      g.currentText == RegeneratedText(f.originalText, context, |imageIds|)
      && g.currentText != g.originalText && !g.isEdited && g.status == Pending
      && g.originalText == f.originalText && g.id == f.id && g.confidence == f.confidence
  {
    var t := RegeneratedText(f.originalText, context, |imageIds|);
    assert |t| != |f.originalText|;
  }

  /** The card backgrounds `getBgColor` chooses between. */
  datatype Background = CardBackground | EmeraldBackground | BlueBackground

  /** `getBgColor` (lines 108-113). */
  function BgColor(showEditHistory: bool, status: Status): (b: Background)
    ensures b == CardBackground <==> !showEditHistory || status == Accepted
    ensures b == EmeraldBackground <==> showEditHistory && status == Edited
    ensures b == BlueBackground <==> showEditHistory && (status.Pending? || status.Rejected?)
  {
    if !showEditHistory then CardBackground
    else if status == Edited then EmeraldBackground
    else if status == Accepted then CardBackground
    else BlueBackground
  }

  /** The card's local state (lines 33-35). */
  class Card {
    var isEditing: bool
    var isRegenerating: bool
    var showRegenerateDialog: bool

    constructor ()
      ensures !isEditing && !isRegenerating && !showRegenerateDialog
    {
      isEditing := false;
      isRegenerating := false;
      showRegenerateDialog := false;
    }

    /** `handleAccept`; the accept button is only shown for a finding not yet accepted. */
    method Accept(f: Finding) returns (id: string, p: FindingPatch)
      requires f.status != Accepted
      ensures id == f.id && p == AcceptPatch()
    {
      id := f.id;
      p := AcceptPatch();
    }

    /** `handleEdit`. */
    method Edit()
      modifies this
      ensures isEditing
      ensures isRegenerating == old(isRegenerating) && showRegenerateDialog == old(showRegenerateDialog)
    {
      isEditing := true;
    }

    /** `handleSave`: sends the edit patch and leaves edit mode. */
    method Save(f: Finding, newText: string, now: string) returns (id: string, p: FindingPatch)
      modifies this
      ensures id == f.id && p == EditPatch(f, newText, now)
      ensures !isEditing
      ensures isRegenerating == old(isRegenerating) && showRegenerateDialog == old(showRegenerateDialog)
    {
      id := f.id;
      p := EditPatch(f, newText, now);
      isEditing := false;
    }

    /** `handleCancel`: leaves edit mode without a patch. */
    method Cancel()
      modifies this
      ensures !isEditing
      ensures isRegenerating == old(isRegenerating) && showRegenerateDialog == old(showRegenerateDialog)
    {
      isEditing := false;
    }

    /** `handleRegenerateClick`; the regenerate button is disabled while a regeneration runs. */
    method RegenerateClick()
      requires !isRegenerating
      modifies this
      ensures showRegenerateDialog
      ensures isEditing == old(isEditing) && isRegenerating == old(isRegenerating)
    {
      showRegenerateDialog := true;
    }

    /** The first half of `handleRegenerate` (lines 75-76): raise the busy flag and close the dialog. */
    method BeginRegenerate()
      requires !isRegenerating
      modifies this
      ensures isRegenerating && !showRegenerateDialog
      ensures isEditing == old(isEditing)
    {
      isRegenerating := true;
      showRegenerateDialog := false;
    }

    /** The second half of `handleRegenerate` (lines 82-104): build the text and the patch, then lower the busy flag. */
    method FinishRegenerate(f: Finding, context: string, selectedImages: seq<string>, timestamp: string)
      returns (id: string, p: FindingPatch)
      requires isRegenerating
      modifies this
      ensures id == f.id
      ensures p == RegeneratePatch(RegeneratedText(f.originalText, context, |selectedImages|), context, selectedImages, timestamp)
      ensures !isRegenerating
      ensures isEditing == old(isEditing) && showRegenerateDialog == old(showRegenerateDialog)
    {
      var regeneratedText := f.originalText + RegeneratedMark;
      if context != "" {
        regeneratedText := regeneratedText + ConsideringLead + context[..Min(50, |context|)] + "...";
      }
      if |selectedImages| > 0 {
        regeneratedText := regeneratedText + ImagesNote(|selectedImages|);
      }
      id := f.id;
      p := RegeneratePatch(regeneratedText, context, selectedImages, timestamp);
      isRegenerating := false;
    }
  }
}
