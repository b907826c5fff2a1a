/**
 * `RegenerateDialog` (`components/report/regenerateDialog.tsx`): the
 * reference-image multi-select and the two state cells, `context` and
 * `selectedImages`, that submit and cancel reset.
 */
module RegenerateDialog {
  import opened Seqs

  /** `id => id !== imageId`. */
  function IsNot(imageId: string): string -> bool
  {
    (id: string) => id != imageId
  }

  /** `toggleImage(imageId)` (lines 51-57): drop every occurrence if selected, otherwise append. */
  function ToggleImage(selected: seq<string>, imageId: string): (r: seq<string>)
    ensures imageId in r <==> imageId !in selected
    ensures forall x :: x != imageId ==> (x in r <==> x in selected)
    ensures imageId !in selected ==> |r| == |selected| + 1 && r[..|selected|] == selected && r[|selected|] == imageId
  {
    if imageId in selected then Filter(selected, IsNot(imageId))
    else selected + [imageId]
  }

  /** Removing keeps the other ids in their order: the result is the selection with the id filtered out. */
  lemma ToggleSelectedKeepsOrder(selected: seq<string>, imageId: string, before: seq<string>, after: seq<string>)
    requires selected == before + [imageId] + after
    ensures ToggleImage(selected, imageId) == Filter(before, IsNot(imageId)) + Filter(after, IsNot(imageId))
  {
    var f := IsNot(imageId);
    assert imageId in selected by { assert selected[|before|] == imageId; }
    FilterAppend(before + [imageId], after, f);
    FilterAppend(before, [imageId], f);
    FilterDropsAll([imageId], f);
    assert Filter(before + [imageId], f) == Filter(before, f);
  }

  /** A selection without duplicates stays without duplicates. */
  lemma ToggleKeepsNoDuplicates(selected: seq<string>, imageId: string)
    requires NoDuplicates(selected)
    ensures NoDuplicates(ToggleImage(selected, imageId))
  {
    if imageId in selected {
      FilterNoDuplicates(selected, IsNot(imageId));
    } else {
      var r := selected + [imageId];
      forall i, j | 0 <= i < j < |r| ensures r[i] != r[j] {
        if j == |selected| {
          assert r[i] in selected;
        }
      }
    }
  }

  /** Toggling an unselected id twice gives the selection back. */
  lemma ToggleTwiceAbsent(selected: seq<string>, imageId: string)
    requires imageId !in selected
    ensures ToggleImage(ToggleImage(selected, imageId), imageId) == selected
  {
    var once := selected + [imageId];
    assert imageId in once;
    FilterAppend(selected, [imageId], IsNot(imageId));
    FilterKeepsAll(selected, IsNot(imageId));
    FilterDropsAll([imageId], IsNot(imageId));
  }

  /** Toggling a selected id twice moves it to the end of a selection without duplicates. */
  lemma ToggleTwicePresent(before: seq<string>, imageId: string, after: seq<string>)
    requires NoDuplicates(before + [imageId] + after)
    ensures ToggleImage(ToggleImage(before + [imageId] + after, imageId), imageId) == before + after + [imageId]
  {
    var selected := before + [imageId] + after;
    assert imageId !in before by {
      forall k | 0 <= k < |before| ensures before[k] != imageId {
        assert selected[k] == before[k] && selected[|before|] == imageId;
      }
    }
    assert imageId !in after by {
      forall k | 0 <= k < |after| ensures after[k] != imageId {
        assert selected[|before| + 1 + k] == after[k] && selected[|before|] == imageId;
      }
    }
    ToggleSelectedKeepsOrder(selected, imageId, before, after);
    FilterKeepsAll(before, IsNot(imageId));
    FilterKeepsAll(after, IsNot(imageId));
    assert imageId !in before + after;
  }

  class Dialog {
    var context: string
    var selectedImages: seq<string>

    /** `useState('')` and `useState([])` (lines 36-37). */
    constructor ()
      ensures context == "" && selectedImages == []
    {
      context := "";
      selectedImages := [];
    }

    /** The context text area. */
    method SetContext(text: string)
      modifies this
      ensures context == text && selectedImages == old(selectedImages)
    {
      context := text;
    }

    /** A click on an image tile. */
    method Toggle(imageId: string)
      modifies this
      ensures selectedImages == ToggleImage(old(selectedImages), imageId)
      ensures context == old(context)
    {
      if imageId in selectedImages {
        selectedImages := Filter(selectedImages, IsNot(imageId));
      } else {
        selectedImages := selectedImages + [imageId];
      }
    }

    /**
     * `handleSubmit` (lines 39-43): hands over the request, then clears the form.
     * `isRegenerating` is the parent's prop; the precondition stands for the
     * submit button being disabled while it is set (line 178).
     */
    method Submit(isRegenerating: bool) returns (requestContext: string, requestImages: seq<string>)
      requires !isRegenerating
      modifies this
      ensures requestContext == old(context) && requestImages == old(selectedImages)
      ensures context == "" && selectedImages == []
    {
      requestContext, requestImages := context, selectedImages;
      context := "";
      selectedImages := [];
    }

    /**
     * `handleCancel` (lines 45-49): asks to close (`open` false) and clears the form.
     * `isRegenerating` is the parent's prop; the precondition stands for the
     * cancel button being disabled while it is set (line 172).
     */
    method Cancel(isRegenerating: bool) returns (open: bool)
      requires !isRegenerating
      modifies this
      ensures !open
      ensures context == "" && selectedImages == []
    {
      open := false;
      context := "";
      selectedImages := [];
    }
  }
}
