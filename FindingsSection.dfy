/**
 * `FindingsSection` (`components/report/findings-section.tsx`): the status
 * filter, the counters, the image lookup, the manual-add validation and
 * construction, and the dialog state cells of the add and delete dialogs.
 *
 * JavaScript truthiness is written out: a string is falsy exactly when it is
 * empty, and `null` is falsy, so `!selectedImageId` holds for `None` and for
 * `Some("")`.
 */
module FindingsSection {
  import opened Wrappers
  import opened Seqs
  import opened Text
  import opened ReportData

  // ---------------------------------------------------------------------------
  // Filter and counters.

  /** `FilterType`: `'all'` or one of three statuses. */
  datatype FilterType = All | PendingOnly | AcceptedOnly | EditedOnly

  /** The status a non-`'all'` filter selects. */
  function FilterStatus(filter: FilterType): Status
    requires filter != All
  {
    match filter
    case PendingOnly => Pending
    case AcceptedOnly => Accepted
    case EditedOnly => Edited
  }

  /** The callback of `findings.filter` (lines 75-78). */
  function Passes(filter: FilterType): Finding -> bool
  {
    (f: Finding) => filter == All || f.status == FilterStatus(filter)
  }

  /** `filteredFindings` (lines 75-78). */
  function FilteredFindings(fs: seq<Finding>, filter: FilterType): seq<Finding>
  {
    Filter(fs, Passes(filter))
  }

  /** `'all'` shows every finding, in order. */
  lemma FilterAllIsEverything(fs: seq<Finding>)
    ensures FilteredFindings(fs, All) == fs
  {
    FilterKeepsAll(fs, Passes(All));
  }

  /** Any other filter shows exactly the findings with its status. */
  lemma FilterByStatus(fs: seq<Finding>, filter: FilterType, f: Finding)
    requires filter != All
    ensures f in FilteredFindings(fs, filter) <==> f in fs && f.status == FilterStatus(filter)
  {
  }

  /** `f => f.status === s`. */
  function HasStatus(s: Status): Finding -> bool
  {
    (f: Finding) => f.status == s
  }

  /** `findings.filter(f => f.status === s).length` (lines 84-86). */
  function StatusCount(fs: seq<Finding>, s: Status): nat
  {
    Count(fs, HasStatus(s))
  }

  /** The four status counts add up to the number of findings. */
  lemma {:induction false} StatusCountsPartition(fs: seq<Finding>)
    ensures StatusCount(fs, Pending) + StatusCount(fs, Accepted) + StatusCount(fs, Edited)
            + StatusCount(fs, Rejected) == |fs|
  {
    if fs != [] {
      StatusCountsPartition(fs[1..]);
    }
  }

  /** The three counters shown leave out `rejected`, so together they never exceed the number of findings. */
  lemma CountersBounded(fs: seq<Finding>)
    ensures StatusCount(fs, Pending) + StatusCount(fs, Accepted) + StatusCount(fs, Edited)
            == |fs| - StatusCount(fs, Rejected)
    ensures StatusCount(fs, Pending) + StatusCount(fs, Accepted) + StatusCount(fs, Edited) <= |fs|
  {
    StatusCountsPartition(fs);
  }

  /** `f => f.isEdited`. */
  function IsEditedFinding(): Finding -> bool
  {
    (f: Finding) => f.isEdited
  }

  /** `editedFindingsCount` (line 136): the findings marked edited. */
  function EditedFindingsCount(fs: seq<Finding>): (n: nat)
    ensures n <= |fs|
    ensures n == 0 <==> forall k :: 0 <= k < |fs| ==> !fs[k].isEdited
  {
    var edited := Filter(fs, IsEditedFinding());
    if |edited| == 0 then
      assert forall k :: 0 <= k < |fs| ==> fs[k] in fs;
      0
    else
      assert edited[0] in edited;
      |edited|
  }

  // ---------------------------------------------------------------------------
  // Image lookup.

  /** `images.find(img => img.id === finding.linkedImageId)` (lines 80-82). */
  function ImageForFinding(images: seq<StudyImage>, f: Finding): (r: Option<StudyImage>)
    ensures r.Some? ==> r.value in images && r.value.id == f.linkedImageId
    ensures r.Some? ==> exists k :: 0 <= k < |images| && images[k] == r.value
                                   && forall j :: 0 <= j < k ==> images[j].id != f.linkedImageId
    ensures r.None? <==> forall k :: 0 <= k < |images| ==> images[k].id != f.linkedImageId
  {
    if images == [] then None
    else if images[0].id == f.linkedImageId then Some(images[0])
    else
      var r := ImageForFinding(images[1..], f);
      if r.Some? then
        var k :| 0 <= k < |images[1..]| && images[1..][k] == r.value
                 && forall j :: 0 <= j < k ==> images[1..][j].id != f.linkedImageId;
        assert images[k + 1] == r.value;
        r
      else
        r
  }

  /** An unlinked finding (`linkedImageId` empty) gets no image, as long as no image has the empty id. */
  lemma UnlinkedHasNoImage(images: seq<StudyImage>, f: Finding)
    requires f.linkedImageId == ""
    requires forall k :: 0 <= k < |images| ==> images[k].id != ""
    ensures ImageForFinding(images, f) == None
  {
  }

  // ---------------------------------------------------------------------------
  // Manual add.

  /** `!!selectedImageId`: present and non-empty. */
  predicate Selected(selectedImageId: Option<string>)
  {
    selectedImageId.Some? && selectedImageId.value != ""
  }

  /** `isAddButtonDisabled` (lines 130-133). */
  predicate AddButtonDisabled(organ: string, text: string, linkToImage: bool, selectedImageId: Option<string>)
  {
    Trim(organ) == "" || Trim(text) == "" || (linkToImage && !Selected(selectedImageId))
  }

  /**
   * `handleAddFinding` (lines 96-113): nothing when the trimmed organ or text is
   * empty or a link is asked for with no image selected; otherwise the new
   * finding, accepted at full confidence, with its texts trimmed.
   */
  function NewFindingDraft(organ: string, text: string, linkToImage: bool, selectedImageId: Option<string>)
    : (r: Option<FindingDraft>)
    ensures r.None? <==> AddButtonDisabled(organ, text, linkToImage, selectedImageId)
    ensures r.Some? ==>
              r.value.organ == Trim(organ) && r.value.organ != "" && Trimmed(r.value.organ)
              && r.value.originalText == Trim(text) && r.value.currentText == Trim(text) && r.value.currentText != ""
              && r.value.confidence == 1.0 && !r.value.isEdited && r.value.status == Accepted
              && r.value.editedBy.None? && r.value.editedAt.None?
              && r.value.abnormalValues.None? && r.value.regenerationContext.None?
    ensures r.Some? ==> r.value.linkedImageId == if linkToImage then selectedImageId.value else ""
  {
    if Trim(organ) == "" || Trim(text) == "" then None
    else if linkToImage && !Selected(selectedImageId) then None
    else
      Some(FindingDraft(
        Trim(organ), 1.0, Trim(text), Trim(text), false, None, None, Accepted,
        if linkToImage && Selected(selectedImageId) then selectedImageId.value else "",
        None, None))
  }

  /** A white-space-only organ or text disables adding, whatever the link choice. */
  lemma BlankInputDisables(organ: string, text: string, linkToImage: bool, selectedImageId: Option<string>)
    requires (forall i :: 0 <= i < |organ| ==> IsWhitespace(organ[i])) || (forall i :: 0 <= i < |text| ==> IsWhitespace(text[i]))
    ensures NewFindingDraft(organ, text, linkToImage, selectedImageId).None?
  {
    TrimEmpty(organ);
    TrimEmpty(text);
  }

  // ---------------------------------------------------------------------------
  // Dialog state (lines 61-73).

  class Section {
    var filter: FilterType
    var isAddDialogOpen: bool
    var newFindingOrgan: string
    var newFindingText: string
    var linkToImage: bool
    var selectedImageId: Option<string>
    var findingToDelete: Option<string>

    constructor ()
      ensures filter == All && !isAddDialogOpen
      ensures newFindingOrgan == "" && newFindingText == "" && !linkToImage
      ensures selectedImageId.None? && findingToDelete.None?
    {
      filter := All;
      isAddDialogOpen := false;
      newFindingOrgan := "";
      newFindingText := "";
      linkToImage := false;
      selectedImageId := None;
      findingToDelete := None;
    }

    /** `handleOpenAddDialog` (lines 88-94): a blank form, then open. */
    method OpenAddDialog()
      modifies this
      ensures isAddDialogOpen
      ensures newFindingOrgan == "" && newFindingText == "" && !linkToImage && selectedImageId.None?
      ensures filter == old(filter) && findingToDelete == old(findingToDelete)
    {
      newFindingOrgan := "";
      newFindingText := "";
      linkToImage := false;
      selectedImageId := None;
      isAddDialogOpen := true;
    }

    /** `handleAddFinding` (lines 96-117): hands the new finding to the page and closes the dialog, or does nothing. */
    method SubmitAdd() returns (added: Option<FindingDraft>)
      modifies this`isAddDialogOpen
      ensures added == NewFindingDraft(old(newFindingOrgan), old(newFindingText), old(linkToImage), old(selectedImageId))
      ensures isAddDialogOpen == (old(isAddDialogOpen) && added.None?)
      ensures newFindingOrgan == old(newFindingOrgan) && newFindingText == old(newFindingText)
      ensures linkToImage == old(linkToImage) && selectedImageId == old(selectedImageId)
      ensures filter == old(filter) && findingToDelete == old(findingToDelete)
    {
      var organ, text, link, image := newFindingOrgan, newFindingText, linkToImage, selectedImageId;
      added := NewFindingDraft(organ, text, link, image);
      isAddDialogOpen := isAddDialogOpen && added.None?;
    }

    /** The filter select's `onValueChange` (line 209): show another status. */
    method SetFilter(f: FilterType)
      modifies this
      ensures filter == f
      ensures isAddDialogOpen == old(isAddDialogOpen) && findingToDelete == old(findingToDelete)
      ensures newFindingOrgan == old(newFindingOrgan) && newFindingText == old(newFindingText)
      ensures linkToImage == old(linkToImage) && selectedImageId == old(selectedImageId)
    {
      filter := f;
    }

    /**
     * The add dialog's `onOpenChange` (line 250) and its cancel button (line
     * 389, `open` false): opens or closes the dialog and keeps the form.
     */
    method SetAddDialogOpen(open: bool)
      modifies this
      ensures isAddDialogOpen == open
      ensures filter == old(filter) && findingToDelete == old(findingToDelete)
      ensures newFindingOrgan == old(newFindingOrgan) && newFindingText == old(newFindingText)
      ensures linkToImage == old(linkToImage) && selectedImageId == old(selectedImageId)
    {
      isAddDialogOpen := open;
    }

    /** The organ input's `onChange` (line 269). */
    method SetOrgan(value: string)
      modifies this
      ensures newFindingOrgan == value
      ensures filter == old(filter) && isAddDialogOpen == old(isAddDialogOpen) && findingToDelete == old(findingToDelete)
      ensures newFindingText == old(newFindingText)
      ensures linkToImage == old(linkToImage) && selectedImageId == old(selectedImageId)
    {
      newFindingOrgan := value;
    }

    /** The description's `onChange` (line 283). */
    method SetText(value: string)
      modifies this
      ensures newFindingText == value
      ensures filter == old(filter) && isAddDialogOpen == old(isAddDialogOpen) && findingToDelete == old(findingToDelete)
      ensures newFindingOrgan == old(newFindingOrgan)
      ensures linkToImage == old(linkToImage) && selectedImageId == old(selectedImageId)
    {
      newFindingText := value;
    }

    /** The link switch's `onCheckedChange` (line 297); a previously picked image stays picked. */
    method SetLinkToImage(checked: bool)
      modifies this
      ensures linkToImage == checked
      ensures filter == old(filter) && isAddDialogOpen == old(isAddDialogOpen) && findingToDelete == old(findingToDelete)
      ensures newFindingOrgan == old(newFindingOrgan) && newFindingText == old(newFindingText)
      ensures selectedImageId == old(selectedImageId)
    {
      linkToImage := checked;
    }

    /** Clicking an image of the grid (line 330) picks it. */
    method PickImage(imageId: string)
      modifies this
      ensures selectedImageId == Some(imageId)
      ensures filter == old(filter) && isAddDialogOpen == old(isAddDialogOpen) && findingToDelete == old(findingToDelete)
      ensures newFindingOrgan == old(newFindingOrgan) && newFindingText == old(newFindingText)
      ensures linkToImage == old(linkToImage)
    {
      selectedImageId := Some(imageId);
    }

    /** `handleDeleteFinding` (lines 119-121): remember which finding to delete. */
    method RequestDelete(id: string)
      modifies this
      ensures findingToDelete == Some(id)
      ensures filter == old(filter) && isAddDialogOpen == old(isAddDialogOpen)
      ensures newFindingOrgan == old(newFindingOrgan) && newFindingText == old(newFindingText)
      ensures linkToImage == old(linkToImage) && selectedImageId == old(selectedImageId)
    {
      findingToDelete := Some(id);
    }

    /** `confirmDelete` (lines 123-128): a pending non-empty id goes to the page and is cleared; otherwise nothing. */
    method ConfirmDelete() returns (deleted: Option<string>)
      modifies this
      ensures Selected(old(findingToDelete)) ==> deleted == old(findingToDelete) && findingToDelete.None?
      ensures !Selected(old(findingToDelete)) ==> deleted.None? && findingToDelete == old(findingToDelete)
      ensures filter == old(filter) && isAddDialogOpen == old(isAddDialogOpen)
      ensures newFindingOrgan == old(newFindingOrgan) && newFindingText == old(newFindingText)
      ensures linkToImage == old(linkToImage) && selectedImageId == old(selectedImageId)
    {
      deleted := None;
      if Selected(findingToDelete) {
        deleted := findingToDelete;
        findingToDelete := None;
      }
    }

    /** The confirmation's `onOpenChange` (line 406): dismissing it forgets the pending id. */
    method DismissDelete()
      modifies this
      ensures findingToDelete.None?
      ensures filter == old(filter) && isAddDialogOpen == old(isAddDialogOpen)
      ensures newFindingOrgan == old(newFindingOrgan) && newFindingText == old(newFindingText)
      ensures linkToImage == old(linkToImage) && selectedImageId == old(selectedImageId)
    {
      findingToDelete := None;
    }
  }
}
