/**
 * `ImageGallery` (`components/report/image-gallery.tsx`): the viewer's two
 * state cells, the selected image index and the zoom factor, with wrap-around
 * navigation, clamped zoom, and the effect that puts the zoom back to 1
 * whenever the selected index changes.
 *
 * The zoom stays a `real`; the ghost field `zoomSteps` counts it in quarters
 * so that the class invariant can say it never leaves the quarter grid.
 */
module ImageGallery {
  import opened Wrappers

  /** `selectedIndex === 0 ? images.length - 1 : selectedIndex - 1` (line 42). */
  function PreviousIndex(i: int, n: int): int
  {
    if i == 0 then n - 1 else i - 1
  }

  /** `selectedIndex === images.length - 1 ? 0 : selectedIndex + 1` (line 47). */
  function NextIndex(i: int, n: int): int
  {
    if i == n - 1 then 0 else i + 1
  }

  /** Both moves stay on an image: from `[0, n)` they land in `[0, n)`. */
  lemma MovesStayInRange(i: int, n: int)
    requires 0 <= i < n
    ensures 0 <= PreviousIndex(i, n) < n
    ensures 0 <= NextIndex(i, n) < n
  {
  }

  /** Previous undoes next, and next undoes previous. */
  lemma MovesAreInverse(i: int, n: int)
    requires 0 <= i < n
    ensures PreviousIndex(NextIndex(i, n), n) == i
    ensures NextIndex(PreviousIndex(i, n), n) == i
  {
  }

  /** Next is the successor modulo the number of images, previous the predecessor. */
  lemma MovesAreModular(i: int, n: int)
    requires 0 <= i < n
    ensures NextIndex(i, n) == (i + 1) % n
    ensures PreviousIndex(i, n) == (i + n - 1) % n
  {
  }

  const MinZoom: real := 0.5
  const MaxZoom: real := 3.0
  const ZoomStep: real := 0.25

  class Gallery {
    const imageCount: nat
    var selectedIndex: Option<int>
    var zoom: real
    ghost var zoomSteps: int

    /** The selection names an image, and the zoom is a quarter multiple in `[0.5, 3]`. */
    ghost predicate Valid()
      reads this
    {
      (selectedIndex.Some? ==> 0 <= selectedIndex.value < imageCount)
      && zoom == zoomSteps as real * ZoomStep
      && 2 <= zoomSteps <= 12
    }

    /** `useState(null)` and `useState(1)` (lines 18-19). */
    constructor (n: nat)
      ensures Valid()
      ensures imageCount == n && selectedIndex.None? && zoom == 1.0
    {
      imageCount := n;
      selectedIndex := None;
      zoom := 1.0;
      zoomSteps := 4;
    }

    /** `setSelectedIndex(next)` followed by the reset effect (lines 22-24), which runs only when the index changes. */
    method SetSelectedIndex(next: Option<int>)
      requires Valid()
      requires next.Some? ==> 0 <= next.value < imageCount
      modifies this
      ensures Valid()
      ensures selectedIndex == next
      ensures zoom == if next != old(selectedIndex) then 1.0 else old(zoom)
    {
      if next != selectedIndex {
        selectedIndex := next;
        zoom := 1.0;
        zoomSteps := 4;
      }
    }

    /** `handlePrevious` (lines 40-43): nothing without a selection, otherwise one image back, wrapping to the last. */
    method Previous()
      requires Valid()
      modifies this
      ensures Valid()
      ensures old(selectedIndex).None? ==> selectedIndex.None? && zoom == old(zoom)
      ensures old(selectedIndex).Some? ==> selectedIndex == Some(PreviousIndex(old(selectedIndex).value, imageCount))
      ensures zoom == if selectedIndex != old(selectedIndex) then 1.0 else old(zoom)
    {
      if selectedIndex.None? {
        return;
      }
      var i := selectedIndex.value;
      SetSelectedIndex(Some(if i == 0 then imageCount - 1 else i - 1));
    }

    /** `handleNext` (lines 45-48): nothing without a selection, otherwise one image on, wrapping to the first. */
    method Next()
      requires Valid()
      modifies this
      ensures Valid()
      ensures old(selectedIndex).None? ==> selectedIndex.None? && zoom == old(zoom)
      ensures old(selectedIndex).Some? ==> selectedIndex == Some(NextIndex(old(selectedIndex).value, imageCount))
      ensures zoom == if selectedIndex != old(selectedIndex) then 1.0 else old(zoom)
    {
      if selectedIndex.None? {
        return;
      }
      var i := selectedIndex.value;
      SetSelectedIndex(Some(if i == imageCount - 1 then 0 else i + 1));
    }

    /** A click on a thumbnail (lines 77, 220). */
    method Select(index: nat)
      requires Valid() && index < imageCount
      modifies this
      ensures Valid()
      ensures selectedIndex == Some(index)
      ensures zoom == if selectedIndex != old(selectedIndex) then 1.0 else old(zoom)
    {
      SetSelectedIndex(Some(index));
    }

    /** Escape, the close button and closing the dialog (lines 33, 114, 165). */
    method Close()
      requires Valid()
      modifies this
      ensures Valid()
      ensures selectedIndex.None?
      ensures zoom == if old(selectedIndex).Some? then 1.0 else old(zoom)
    {
      SetSelectedIndex(None);
    }

    /** `handleZoomIn` (lines 50-52): a quarter more, at most 3. */
    method ZoomIn()
      requires Valid()
      modifies this
      ensures Valid()
      ensures zoom == if old(zoom) + ZoomStep <= MaxZoom then old(zoom) + ZoomStep else MaxZoom
      ensures selectedIndex == old(selectedIndex)
    {
      if zoom + ZoomStep <= MaxZoom {
        zoom := zoom + ZoomStep;
        zoomSteps := zoomSteps + 1;
      } else {
        zoom := MaxZoom;
        zoomSteps := 12;
      }
    }

    /** `handleZoomOut` (lines 54-56): a quarter less, at least 0.5. */
    method ZoomOut()
      requires Valid()
      modifies this
      ensures Valid()
      ensures zoom == if old(zoom) - ZoomStep >= MinZoom then old(zoom) - ZoomStep else MinZoom
      ensures selectedIndex == old(selectedIndex)
    {
      if zoom - ZoomStep >= MinZoom {
        zoom := zoom - ZoomStep;
        zoomSteps := zoomSteps - 1;
      } else {
        zoom := MinZoom;
        zoomSteps := 2;
      }
    }

    /** `handleResetZoom` (lines 58-60). */
    method ResetZoom()
      requires Valid()
      modifies this
      ensures Valid()
      ensures zoom == 1.0 && selectedIndex == old(selectedIndex)
    {
      zoom := 1.0;
      zoomSteps := 4;
    }
  }

  /** The zoom the viewer shows is always within `[0.5, 3]`. */
  lemma ZoomInBounds(g: Gallery)
    requires g.Valid()
    ensures MinZoom <= g.zoom <= MaxZoom
  {
  }
}
