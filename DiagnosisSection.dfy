/**
 * `DiagnosisSection` (`components/report/diagnosis-section.tsx`): the editor
 * text a diagnosis is shown as (one bulleted line per item), the parser that
 * turns edited text back into items, the three patches, and the section's two
 * flags.
 */
module DiagnosisSection {
  import opened Wrappers
  import opened Seqs
  import opened Text
  import opened ReportData
  import opened Page

  // ---------------------------------------------------------------------------
  // Serialiser and parser.

  /** The characters `[•\-\*]` accepts as a list marker. */
  predicate IsMarker(c: char)
  {
    c == '•' || c == '-' || c == '*'
  }

  /** The regular expression `^[•\-\*]\s*` removed from a line: one leading marker and the white space after it. */
  function StripMarker(line: string): (r: string)
    ensures |r| <= |line|
    ensures forall c :: c in r ==> c in line
    ensures (line == [] || !IsMarker(line[0])) ==> r == line
    ensures line != [] && IsMarker(line[0]) ==> r == TrimStart(line[1..])
  {
    if line != [] && IsMarker(line[0]) then
      var rest := TrimStart(line[1..]);
      assert forall c :: c in rest ==> c in line[1..];
      rest
    else line
  }

  /** The per-line `map` of `handleSave`: strip the marker, then trim. */
  function CleanLine(line: string): string
  {
    Trim(StripMarker(line))
  }

  /** A cleaned line is trimmed, and stays on one line. */
  lemma CleanLineOk(line: string)
    ensures Trimmed(CleanLine(line))
    ensures '\n' !in line ==> '\n' !in CleanLine(line)
  {
    var stripped := StripMarker(line);
    assert forall c :: c in Trim(stripped) ==> c in stripped;
  }

  function CleanLines(lines: seq<string>): (r: seq<string>)
    ensures |r| == |lines|
    ensures forall k {:trigger r[k]} :: 0 <= k < |lines| ==> r[k] == CleanLine(lines[k])
  {
    seq(|lines|, k requires 0 <= k < |lines| => CleanLine(lines[k]))
  }

  /** `Boolean` applied to a string: only the empty string is falsy. */
  function NonEmpty(): string -> bool
  {
    (s: string) => s != ""
  }

  /** What a diagnosis item looks like after parsing: non-empty, trimmed, on one line. */
  predicate ItemOk(item: string)
  {
    item != "" && Trimmed(item) && '\n' !in item
  }

  /** Cleaned line-feed-free lines that survive the filter are well-formed items. */
  lemma CleanedItemsOk(lines: seq<string>)
    requires forall k :: 0 <= k < |lines| ==> '\n' !in lines[k]
    ensures forall k :: 0 <= k < |Filter(CleanLines(lines), NonEmpty())| ==>
              ItemOk(Filter(CleanLines(lines), NonEmpty())[k])
  {
    var cleaned := CleanLines(lines);
    forall m | 0 <= m < |cleaned| ensures Trimmed(cleaned[m]) && '\n' !in cleaned[m] {
      CleanLineOk(lines[m]);
    }
    var items := Filter(cleaned, NonEmpty());
    forall k | 0 <= k < |items| ensures ItemOk(items[k]) {
      assert items[k] in cleaned;
    }
  }

  /** `content.split('\n').map(...).filter(Boolean)` (lines 31-33). */
  function ParseItems(content: string): seq<string>
  {
    Filter(CleanLines(SplitLines(content)), NonEmpty())
  }

  /** Every parsed item is non-empty, trimmed and free of line feeds. */
  lemma ParseItemsOk(content: string)
    ensures forall k :: 0 <= k < |ParseItems(content)| ==> ItemOk(ParseItems(content)[k])
  {
    CleanedItemsOk(SplitLines(content));
  }

  /** `items.map(item => `• ${item}`)`. */
  function Bulleted(items: seq<string>): (lines: seq<string>)
    ensures |lines| == |items|
    ensures forall k :: 0 <= k < |items| ==> lines[k] == "• " + items[k]
  {
    if items == [] then [] else ["• " + items[0]] + Bulleted(items[1..])
  }

  /** The editor seed (line 92): the bulleted items joined by line feeds. */
  function Serialize(items: seq<string>): string
  {
    JoinLines(Bulleted(items))
  }

  /** A bulleted well-formed item cleans back to the item. */
  lemma CleanBulleted(item: string)
    requires ItemOk(item)
    ensures CleanLine("• " + item) == item
  {
    var line := "• " + item;
    assert line[1..] == " " + item;
    assert TrimStart(" " + item) == TrimStart(item) by {
      assert (" " + item)[1..] == item;
    }
    TrimOfTrimmed(item);
  }

  /** Cleaning the bulleted lines of well-formed items gives the items back. */
  lemma CleanLinesBulleted(items: seq<string>)
    requires forall k :: 0 <= k < |items| ==> ItemOk(items[k])
    ensures CleanLines(Bulleted(items)) == items
  {
    var lines := Bulleted(items);
    forall k | 0 <= k < |items| ensures CleanLines(lines)[k] == items[k] {
      CleanBulleted(items[k]);
    }
  }

  /** Parsing the editor seed gives the items back when each is non-empty, trimmed and on one line. */
  lemma ParseSerialize(items: seq<string>)
    requires forall k :: 0 <= k < |items| ==> ItemOk(items[k])
    ensures ParseItems(Serialize(items)) == items
  {
    if items == [] {
      assert SplitLines("") == [""];
      assert CleanLines([""]) == [""];
      assert Filter([""], NonEmpty()) == [] + Filter([], NonEmpty());
    } else {
      var lines := Bulleted(items);
      forall k | 0 <= k < |lines| ensures '\n' !in lines[k] {
        assert lines[k] == "• " + items[k];
      }
      SplitJoinLines(lines);
      CleanLinesBulleted(items);
      FilterKeepsAll(items, NonEmpty());
    }
  }

  /** Saving the seed of a parsed text parses to the same items: parse, serialise, parse is parse. */
  lemma ParseIdempotent(content: string)
    ensures ParseItems(Serialize(ParseItems(content))) == ParseItems(content)
  {
    ParseItemsOk(content);
    ParseSerialize(ParseItems(content));
  }

  // ---------------------------------------------------------------------------
  // Patches.

  const RegeneratedItem: string := "Sospecha de proceso inflamatorio crónico"

  /** `handleAccept` (lines 22-24): `{ status: 'accepted' }`. */
  function AcceptPatch(): (p: DiagnosisPatch)
    ensures p.status == Some(Accepted)
  {
    DiagnosisPatch(None, None, Some(Accepted), None, None, None)
  }

  /** Accepting changes the status and nothing else. */
  lemma AcceptOnlyStatus(d: Diagnosis)
    ensures MergeDiagnosis(d, AcceptPatch()) == d.(status := Accepted)
  {
  }

  /**
   * `handleSave(content)` (lines 30-41): the parsed items, status `edited`, the
   * signature, and the pre-edit items as baseline unless a baseline is already
   * recorded (`originalItems || items`: any array, even an empty one, is truthy).
   */
  function EditPatch(d: Diagnosis, content: string, now: string): (p: DiagnosisPatch)
    ensures p.items == Some(ParseItems(content))
    ensures p.status == Some(Edited)
    ensures p.confidence.None?
    ensures p.editedBy == Some(Some(EditorName)) && p.editedAt == Some(Some(now))
    ensures p.originalItems == Some(Some(d.originalItems.GetOr(d.items)))
  {
    DiagnosisPatch(
      None,
      Some(ParseItems(content)),
      Some(Edited),
      Some(Some(d.originalItems.GetOr(d.items))),
      Some(Some(EditorName)),
      Some(Some(now)))
  }

  /** The first edit records the items it replaced; a later edit keeps that first baseline. */
  lemma BaselineKept(d: Diagnosis, c1: string, t1: string, c2: string, t2: string)
    requires d.originalItems.None?
    ensures var e1 := MergeDiagnosis(d, EditPatch(d, c1, t1));
      var e2 := MergeDiagnosis(e1, EditPatch(e1, c2, t2));
      e1.originalItems == Some(d.items) && e2.originalItems == Some(d.items)
  {
  }

  /**
   * Whatever the content, a saved edit leaves the diagnosis edited, with the
   * parsed (well-formed) items, signed at the given time, and with its confidence.
   */
  lemma EditAlwaysSigns(d: Diagnosis, content: string, now: string)
    ensures var e := MergeDiagnosis(d, EditPatch(d, content, now));
      e.status == Edited && e.items == ParseItems(content)
      && (forall k :: 0 <= k < |e.items| ==> ItemOk(e.items[k]))
      && e.editedBy == Some(EditorName) && e.editedAt == Some(now)
      && e.originalItems == Some(d.originalItems.GetOr(d.items)) && e.confidence == d.confidence
  {
    ParseItemsOk(content);
  }

  /** An edit that leaves the text as seeded keeps the items, but still marks the diagnosis edited and signs it. */
  lemma EditUnchangedStillSigns(d: Diagnosis, now: string)
    requires forall k :: 0 <= k < |d.items| ==> ItemOk(d.items[k])
    ensures var e := MergeDiagnosis(d, EditPatch(d, Serialize(d.items), now));
      e.items == d.items && e.status == Edited && e.editedBy == Some(EditorName)
  {
    EditAlwaysSigns(d, Serialize(d.items), now);
    ParseSerialize(d.items);
  }

  /** `handleRegenerate`'s patch (lines 48-52): one fixed item appended, pending, confidence 0.89. */
  function RegeneratePatch(d: Diagnosis): (p: DiagnosisPatch)
    ensures p.originalItems.None? && p.status == Some(Pending)
  {
    DiagnosisPatch(Some(0.89), Some(d.items + [RegeneratedItem]), Some(Pending), None, None, None)
  }

  /** Regeneration appends exactly one item at the end and leaves the baseline and signature alone. */
  lemma RegenerateAppendsOne(d: Diagnosis)
    ensures var e := MergeDiagnosis(d, RegeneratePatch(d));
      |e.items| == |d.items| + 1 && e.items[..|d.items|] == d.items && e.items[|d.items|] == RegeneratedItem
      && e.status == Pending && e.confidence == 0.89
      && e.originalItems == d.originalItems && e.editedBy == d.editedBy && e.editedAt == d.editedAt
  {
  }

  /** None of the three patches ever makes the diagnosis `rejected`. */
  lemma PatchesKeepStatusOk(d: Diagnosis, content: string, now: string)
    requires DiagnosisStatusOk(d)
    ensures DiagnosisStatusOk(MergeDiagnosis(d, AcceptPatch()))
    ensures DiagnosisStatusOk(MergeDiagnosis(d, EditPatch(d, content, now)))
    ensures DiagnosisStatusOk(MergeDiagnosis(d, RegeneratePatch(d)))
  {
  }

  // ---------------------------------------------------------------------------
  // The section's local state (lines 17-18).

  class Section {
    var isEditing: bool
    var isRegenerating: bool

    constructor ()
      ensures !isEditing && !isRegenerating
    {
      isEditing := false;
      isRegenerating := false;
    }

    /** `handleAccept`; the accept button is only shown for a diagnosis not yet accepted. */
    method Accept(d: Diagnosis) returns (p: DiagnosisPatch)
      requires d.status != Accepted
      ensures p == AcceptPatch()
    {
      p := AcceptPatch();
    }

    /** `handleEdit`: the editor opens seeded with the serialised items. */
    method Edit(d: Diagnosis) returns (seed: string)
      modifies this
      ensures isEditing && isRegenerating == old(isRegenerating)
      ensures seed == Serialize(d.items)
    {
      isEditing := true;
      seed := Serialize(d.items);
    }

    /** `handleSave`: sends the edit patch and closes the editor. */
    method Save(d: Diagnosis, content: string, now: string) returns (p: DiagnosisPatch)
      modifies this`isEditing
      ensures p == EditPatch(d, content, now)
      ensures !isEditing && isRegenerating == old(isRegenerating)
    {
      isEditing := false;
      p := EditPatch(d, content, now);
    }

    /** The editor's cancel callback (line 94). */
    method Cancel()
      modifies this
      ensures !isEditing && isRegenerating == old(isRegenerating)
    {
      isEditing := false;
    }

    /** The first half of `handleRegenerate`; the regenerate button is disabled while busy. */
    method BeginRegenerate()
      requires !isRegenerating
      modifies this
      ensures isRegenerating && isEditing == old(isEditing)
    {
      isRegenerating := true;
    }

    /**
     * The second half of `handleRegenerate`: send the patch and lower the busy
     * flag. `d` is the diagnosis as it was when the request started, since the
     * source appends to the items it captured before the delay.
     */
    method FinishRegenerate(d: Diagnosis) returns (p: DiagnosisPatch)
      requires isRegenerating
      modifies this
      ensures p == RegeneratePatch(d)
      ensures !isRegenerating && isEditing == old(isEditing)
    {
      p := RegeneratePatch(d);
      isRegenerating := false;
    }
  }
}
