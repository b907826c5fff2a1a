/**
 * `InlineEditor` (`components/report/inline-editor.tsx`): the editor's
 * `content` cell, the markdown-style wrapping of the selection, the
 * click-outside rule and restore-original.
 *
 * The textarea's selection is passed in as `start` and `end`; focusing and
 * restoring the selection afterwards is browser plumbing, so the new
 * selection is returned instead.
 */
module InlineEditor {

  /** The markers a toolbar format inserts and where the cursor lands in an empty selection. */
  datatype Markers = Markers(prefix: string, suffix: string, cursorOffset: nat)

  /** The `switch (format)` of `formatText` (lines 109-138); an unknown format inserts nothing. */
  function MarkersFor(format: string): (m: Markers)
    ensures m.cursorOffset == |m.prefix|
  {
    match format
    case "bold" => Markers("**", "**", 2)
    case "italic" => Markers("_", "_", 1)
    case "underline" => Markers("<u>", "</u>", 3)
    case "list" => Markers("• ", "", 2)
    case "orderedList" => Markers("1. ", "", 3)
    case _ => Markers("", "", 0)
  }

  /** The five toolbar formats. */
  predicate KnownFormat(format: string)
  {
    format in {"bold", "italic", "underline", "list", "orderedList"}
  }

  /** A format the switch does not know inserts nothing; every known one inserts a prefix. */
  lemma MarkersEmptyIffUnknown(format: string)
    ensures MarkersFor(format).prefix == "" <==> !KnownFormat(format)
    ensures !KnownFormat(format) ==> MarkersFor(format).suffix == ""
  {
  }

  /** The content after formatting `[start, end)`: prefix before the selection, suffix after it (lines 141, 150). */
  function Formatted(content: string, format: string, start: nat, end: nat): string
    requires start <= end <= |content|
  {
    var m := MarkersFor(format);
    content[..start] + m.prefix + content[start..end] + m.suffix + content[end..]
  }

  /** Formatting grows the content by the two markers and keeps the selected text right after the prefix. */
  lemma FormattedShape(content: string, format: string, start: nat, end: nat)
    requires start <= end <= |content|
    ensures var m := MarkersFor(format);
      var t := Formatted(content, format, start, end);
      |t| == |content| + |m.prefix| + |m.suffix|
      && t[..start] == content[..start]
      && t[start..start + |m.prefix|] == m.prefix
      && t[start + |m.prefix|..end + |m.prefix|] == content[start..end]
      && t[end + |m.prefix|..end + |m.prefix| + |m.suffix|] == m.suffix
      && t[end + |m.prefix| + |m.suffix|..] == content[end..]
  {
    var m := MarkersFor(format);
    var t := Formatted(content, format, start, end);
    var a := content[..start];
    var b := content[start..end];
    var c := content[end..];
    assert t == a + m.prefix + b + m.suffix + c;
    assert t[..start] == a;
    assert t[start..start + |m.prefix|] == m.prefix;
    assert t[start + |m.prefix|..end + |m.prefix|] == b;
    assert t[end + |m.prefix|..end + |m.prefix| + |m.suffix|] == m.suffix;
    assert t[end + |m.prefix| + |m.suffix|..] == c;
  }

  /** The two splices `formatText` builds, with and without a selection, are both `Formatted`. */
  lemma FormatSplices(content: string, format: string, start: nat, end: nat)
    requires start <= end <= |content|
    ensures var m := MarkersFor(format);
      var t := content[..start] + m.prefix + content[start..end] + m.suffix + content[end..];
      t == Formatted(content, format, start, end)
      && end + |m.prefix| <= |t| && t[start + |m.prefix|..end + |m.prefix|] == content[start..end]
    ensures var m := MarkersFor(format);
      start == end ==> content[..start] + m.prefix + m.suffix + content[end..] == Formatted(content, format, start, end)
  {
    var m := MarkersFor(format);
    FormattedShape(content, format, start, end);
    if start == end {
      assert content[start..end] == [];
      assert content[..start] + m.prefix + m.suffix == content[..start] + m.prefix + content[start..end] + m.suffix;
    }
  }

  /** An unknown format leaves the content as it was. */
  lemma UnknownFormatIsIdentity(content: string, format: string, start: nat, end: nat)
    requires start <= end <= |content|
    requires !KnownFormat(format)
    ensures Formatted(content, format, start, end) == content
  {
    assert content[..start] + content[start..end] + content[end..] == content;
  }

  /** What the editor asks its owner to do. */
  datatype Outcome = SaveContent(content: string) | CancelEdit

  /** The click-outside rule (lines 63-67): save when the content changed, cancel otherwise. */
  function ClickOutsideOutcome(content: string, initialContent: string): (o: Outcome)
    ensures o.SaveContent? <==> content != initialContent
    ensures o.SaveContent? ==> o.content == content
  {
    if content != initialContent then SaveContent(content) else CancelEdit
  }

  class Editor {
    const initialContent: string
    var content: string

    /** `useState(initialContent)` (line 24). */
    constructor (initial: string)
      ensures initialContent == initial && content == initial
    {
      initialContent := initial;
      content := initial;
    }

    /**
     * `formatText(format)` (lines 102-159) over the selection `[start, end)`:
     * rewrites the content and returns the selection the editor restores, the
     * old selected text when it was non-empty, otherwise a cursor just after
     * the prefix.
     */
    method Format(format: string, start: nat, end: nat) returns (selStart: nat, selEnd: nat)
      requires start <= end <= |content|
      modifies this
      ensures content == Formatted(old(content), format, start, end)
      ensures start < end ==> selStart == start + |MarkersFor(format).prefix| && selEnd == end + |MarkersFor(format).prefix|
      ensures start < end ==> content[selStart..selEnd] == old(content)[start..end]
      ensures start == end ==> selStart == selEnd == start + |MarkersFor(format).prefix|
      ensures selEnd <= |content|
    {
      var selectedText := content[start..end];
      var prefix := "";
      var suffix := "";
      var cursorOffset := 0;
      if format == "bold" {
        prefix, suffix, cursorOffset := "**", "**", 2;
      } else if format == "italic" {
        prefix, suffix, cursorOffset := "_", "_", 1;
      } else if format == "underline" {
        prefix, suffix, cursorOffset := "<u>", "</u>", 3;
      } else if format == "list" {
        prefix, cursorOffset := "• ", 2;
      } else if format == "orderedList" {
        prefix, cursorOffset := "1. ", 3;
      }
      assert Markers(prefix, suffix, cursorOffset) == MarkersFor(format);
      FormatSplices(content, format, start, end);
      if selectedText != "" {
        content := content[..start] + prefix + selectedText + suffix + content[end..];
        selStart, selEnd := start + |prefix|, end + |prefix|;
      } else {
        content := content[..start] + prefix + suffix + content[end..];
        selStart, selEnd := start + cursorOffset, start + cursorOffset;
      }
    }

    /** A mouse-down outside the editor. */
    method ClickOutside() returns (o: Outcome)
      ensures o == ClickOutsideOutcome(content, initialContent)
    {
      if content != initialContent {
        o := SaveContent(content);
      } else {
        o := CancelEdit;
      }
    }

    /** The restore-original button (line 247). */
    method RestoreOriginal()
      modifies this
      ensures content == initialContent
    {
      content := initialContent;
    }
  }

  /** After restoring the original, clicking outside cancels rather than saves. */
  lemma RestoreThenClickCancels(initialContent: string)
    ensures ClickOutsideOutcome(initialContent, initialContent) == CancelEdit
  {
  }
}
