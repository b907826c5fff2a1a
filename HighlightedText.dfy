/**
 * `HighlightedText` (`components/report/highlighted-text.tsx`): cuts a finding's
 * text into plain pieces and highlighted measurements.
 *
 * The component sorts the abnormal values by descending text length, keeps the
 * first occurrence of each value text unless it overlaps a range kept before
 * (by the component's own one-sided test), sorts the kept ranges by start and
 * walks the text left to right. The two `Array.prototype.sort` calls are the
 * stable insertion sorts `SortByLength` and `SortByStart`; the two `forEach`
 * loops are the methods `CollectHighlights` and `EmitSegments`.
 */
module HighlightedText {
  import opened Wrappers
  import opened Seqs
  import opened Text
  import opened ReportData

  /** An accepted range `[start, end)` of the text and the value found there. */
  datatype Highlight = Highlight(start: int, end: int, value: AbnormalValue)

  /** What the component renders: a `<span>` of plain text or a `<mark>` for a value. */
  datatype Segment = Plain(text: string) | Marked(value: AbnormalValue, outOfRange: bool)

  /** The characters a segment shows. */
  function SegmentText(s: Segment): string
  {
    match s
    case Plain(t) => t
    case Marked(v, _) => v.text
  }

  /** The rendered text, segment after segment. */
  function Concat(segs: seq<Segment>): string
  {
    if segs == [] then "" else Concat(segs[..|segs| - 1]) + SegmentText(segs[|segs| - 1])
  }

  /** A value is out of range when it lies strictly outside its normal range. */
  predicate OutOfRange(v: AbnormalValue)
  {
    v.value < v.normalLow || v.value > v.normalHigh
  }

  /** Both bounds of the normal range count as in range. */
  lemma InRangeIsInclusive(v: AbnormalValue)
    ensures !OutOfRange(v) <==> v.normalLow <= v.value <= v.normalHigh
  {
  }

  /** The highlight segment the component renders for a kept range. */
  function MarkOf(h: Highlight): Segment
  {
    Marked(h.value, OutOfRange(h.value))
  }

  /** The highlight segments for a list of kept ranges, in the same order. */
  function MarksOf(hs: seq<Highlight>): (r: seq<Segment>)
    ensures |r| == |hs|
    ensures forall k :: 0 <= k < |hs| ==> r[k] == MarkOf(hs[k])
  {
    if hs == [] then [] else MarksOf(hs[..|hs| - 1]) + [MarkOf(hs[|hs| - 1])]
  }

  /** The highlight segments among `segs`, in order. */
  function MarkedOnly(segs: seq<Segment>): seq<Segment>
  {
    if segs == [] then []
    else MarkedOnly(segs[..|segs| - 1]) + (if segs[|segs| - 1].Marked? then [segs[|segs| - 1]] else [])
  }

  lemma MarkedOnlyPush(segs: seq<Segment>, s: Segment)
    ensures MarkedOnly(segs + [s]) == MarkedOnly(segs) + (if s.Marked? then [s] else [])
  {
    assert (segs + [s])[..|segs|] == segs;
  }

  /** Where each mark sits in the rendered text: the length of everything rendered before it. */
  function MarkStarts(segs: seq<Segment>): seq<int>
  {
    if segs == [] then []
    else
      var init := segs[..|segs| - 1];
      MarkStarts(init) + (if segs[|segs| - 1].Marked? then [|Concat(init)|] else [])
  }

  lemma MarkStartsPush(segs: seq<Segment>, s: Segment)
    ensures MarkStarts(segs + [s]) == MarkStarts(segs) + (if s.Marked? then [|Concat(segs)|] else [])
  {
    assert (segs + [s])[..|segs|] == segs;
  }

  /** The start offsets of a list of ranges, in the same order. */
  function Starts(hs: seq<Highlight>): (r: seq<int>)
    ensures |r| == |hs|
    ensures forall k :: 0 <= k < |hs| ==> r[k] == hs[k].start
  {
    if hs == [] then [] else Starts(hs[..|hs| - 1]) + [hs[|hs| - 1].start]
  }

  lemma StartsPush(hs: seq<Highlight>, i: nat)
    requires i < |hs|
    ensures Starts(hs[..i + 1]) == Starts(hs[..i]) + [hs[i].start]
  {
    assert hs[..i + 1][..i] == hs[..i];
  }

  // ---------------------------------------------------------------------------
  // The first sort: by descending length of the value text, stable.

  predicate LengthDescending(vs: seq<AbnormalValue>)
  {
    forall i, j :: 0 <= i < j < |vs| ==> |vs[j].text| <= |vs[i].text|
  }

  /** Puts `v` in front of the first element that is not longer than it. */
  function InsertByLength(v: AbnormalValue, s: seq<AbnormalValue>): (r: seq<AbnormalValue>)
    requires LengthDescending(s)
    ensures |r| == |s| + 1 && (r[0] == v || (s != [] && r[0] == s[0]))
    ensures LengthDescending(r)
  {
    if s == [] || |s[0].text| <= |v.text| then [v] + s
    else
      var t := InsertByLength(v, s[1..]);
      assert |t[0].text| <= |s[0].text|;
      [s[0]] + t
  }

  /** `[...values].sort((a, b) => b.text.length - a.text.length)`. */
  function SortByLength(vs: seq<AbnormalValue>): (r: seq<AbnormalValue>)
    ensures LengthDescending(r)
  {
    if vs == [] then [] else InsertByLength(vs[0], SortByLength(vs[1..]))
  }

  lemma {:induction false} InsertByLengthPermutes(v: AbnormalValue, s: seq<AbnormalValue>)
    requires LengthDescending(s)
    ensures multiset(InsertByLength(v, s)) == multiset(s) + multiset{v}
  {
    if s != [] && |s[0].text| > |v.text| {
      InsertByLengthPermutes(v, s[1..]);
      assert s == [s[0]] + s[1..];
    }
  }

  /** The sort is a permutation: it neither loses nor duplicates a value. */
  lemma {:induction false} SortByLengthPermutes(vs: seq<AbnormalValue>)
    ensures multiset(SortByLength(vs)) == multiset(vs)
  {
    if vs != [] {
      SortByLengthPermutes(vs[1..]);
      InsertByLengthPermutes(vs[0], SortByLength(vs[1..]));
      assert vs == [vs[0]] + vs[1..];
    }
  }

  /** The values of `vs` whose text has length `n`, in their order. */
  function OfLength(vs: seq<AbnormalValue>, n: nat): seq<AbnormalValue>
  {
    if vs == [] then [] else (if |vs[0].text| == n then [vs[0]] else []) + OfLength(vs[1..], n)
  }

  lemma {:induction false} InsertByLengthStable(v: AbnormalValue, s: seq<AbnormalValue>, n: nat)
    requires LengthDescending(s)
    ensures OfLength(InsertByLength(v, s), n) == (if |v.text| == n then [v] else []) + OfLength(s, n)
  {
    var mine := if |v.text| == n then [v] else [];
    if s == [] || |s[0].text| <= |v.text| {
      var r := [v] + s;
      assert r[0] == v && r[1..] == s;
    } else {
      InsertByLengthStable(v, s[1..], n);
      var t := InsertByLength(v, s[1..]);
      var r := [s[0]] + t;
      assert r[0] == s[0] && r[1..] == t;
      var first := if |s[0].text| == n then [s[0]] else [];
      assert OfLength(r, n) == first + OfLength(t, n);
      assert first == [] || mine == [];
    }
  }

  /** The sort is stable: values of equal length keep their relative order. */
  lemma {:induction false} SortByLengthStable(vs: seq<AbnormalValue>, n: nat)
    ensures OfLength(SortByLength(vs), n) == OfLength(vs, n)
  {
    if vs != [] {
      SortByLengthStable(vs[1..], n);
      InsertByLengthStable(vs[0], SortByLength(vs[1..]), n);
    }
  }

  // ---------------------------------------------------------------------------
  // The first loop: keep the first occurrence of each value unless it overlaps.

  /** The component's overlap test against one kept range (lines 35-36): only the two ends of the new range are checked. */
  predicate OneSidedOverlap(start: int, end: int, h: Highlight)
  {
    (start >= h.start && start < h.end) || (end > h.start && end <= h.end)
  }

  /** `highlights.some(...)`. */
  predicate OverlapsAny(hs: seq<Highlight>, start: int, end: int)
  {
    exists k :: 0 <= k < |hs| && OneSidedOverlap(start, end, hs[k])
  }

  /** One step of the `forEach`: push the first occurrence of `v` unless it is missing or overlaps. */
  function Step(text: string, hs: seq<Highlight>, v: AbnormalValue): seq<Highlight>
  {
    var index := IndexOf(text, v.text);
    if index != -1 && !OverlapsAny(hs, index, index + |v.text|) then
      hs + [Highlight(index, index + |v.text|, v)]
    else hs
  }

  /** The ranges kept after visiting `cands` in order. */
  function Select(text: string, cands: seq<AbnormalValue>): (r: seq<Highlight>)
    ensures |r| <= |cands|
  {
    if cands == [] then []
    else Step(text, Select(text, cands[..|cands| - 1]), cands[|cands| - 1])
  }

  /** `h` covers characters of `text` that spell its value text. */
  predicate InText(text: string, h: Highlight)
  {
    0 <= h.start && h.end == h.start + |h.value.text| <= |text|
    && text[h.start..h.end] == h.value.text
  }

  /** `h` is the first occurrence of its own value text in `text`. */
  predicate FirstOccurrence(text: string, h: Highlight)
  {
    InText(text, h) && h.start == IndexOf(text, h.value.text)
  }

  /**
   * For two kept ranges, the earlier-kept `hs[i]` and the later `hs[j]`: either
   * `hs[i]` ends before `hs[j]` starts, or `hs[j]` lies wholly before `hs[i]`.
   */
  predicate Compatible(hs: seq<Highlight>)
  {
    forall i, j :: 0 <= i < j < |hs| ==>
      hs[i].end <= hs[j].start || (hs[j].end <= hs[i].start && hs[j].start < hs[i].start)
  }

  /** Against a range at least as long, the one-sided test misses nothing: no hit means the two are apart. */
  lemma OneSidedSuffices(start: int, len: nat, h: Highlight)
    requires h.end - h.start >= len
    requires !OneSidedOverlap(start, start + len, h)
    ensures h.end <= start || (start + len <= h.start && start < h.start)
  {
  }

  /** For a non-empty range no longer than `h`, the one-sided test is exactly interval overlap. */
  lemma OneSidedIsOverlap(start: int, len: nat, h: Highlight)
    requires 0 < len <= h.end - h.start
    ensures OneSidedOverlap(start, start + len, h) <==> (start < h.end && h.start < start + len)
  {
  }

  /** Every kept range is the first occurrence of its value, and the value is one of the candidates. */
  lemma {:induction false} SelectFirstOccurrences(text: string, cands: seq<AbnormalValue>)
    ensures forall h :: h in Select(text, cands) ==> FirstOccurrence(text, h) && h.value in cands
  {
    if cands != [] {
      var prefix := cands[..|cands| - 1];
      var c := cands[|cands| - 1];
      var hs := Select(text, prefix);
      SelectFirstOccurrences(text, prefix);
      assert forall x :: x in prefix ==> x in cands;
      var r := Select(text, cands);
      var index := IndexOf(text, c.text);
      if index != -1 && !OverlapsAny(hs, index, index + |c.text|) {
        var h := Highlight(index, index + |c.text|, c);
        assert r == hs + [h];
        assert FirstOccurrence(text, h) by { assert text[h.start..h.end] == c.text; }
        forall x | x in r ensures FirstOccurrence(text, x) && x.value in cands {
          if x != h {
            assert x in hs;
          }
        }
      } else {
        assert r == hs;
      }
    }
  }

  /** A step keeps the ranges compatible when every range kept so far is at least as long as the new value. */
  lemma StepCompatible(text: string, hs: seq<Highlight>, c: AbnormalValue)
    requires Compatible(hs)
    requires forall k :: 0 <= k < |hs| ==> hs[k].end - hs[k].start >= |c.text|
    ensures Compatible(Step(text, hs, c))
  {
    var index := IndexOf(text, c.text);
    if index != -1 && !OverlapsAny(hs, index, index + |c.text|) {
      forall k | 0 <= k < |hs|
        ensures hs[k].end <= index || (index + |c.text| <= hs[k].start && index < hs[k].start)
      {
        assert !OneSidedOverlap(index, index + |c.text|, hs[k]);
        OneSidedSuffices(index, |c.text|, hs[k]);
      }
    }
  }

  /** Visiting the candidates in non-increasing length keeps the ranges pairwise compatible. */
  lemma {:induction false} SelectCompatible(text: string, cands: seq<AbnormalValue>)
    requires LengthDescending(cands)
    ensures Compatible(Select(text, cands))
  {
    if cands != [] {
      var prefix := cands[..|cands| - 1];
      var c := cands[|cands| - 1];
      var hs := Select(text, prefix);
      assert LengthDescending(prefix);
      SelectCompatible(text, prefix);
      SelectFirstOccurrences(text, prefix);
      forall k | 0 <= k < |hs| ensures hs[k].end - hs[k].start >= |c.text| {
        assert hs[k] in hs;
        var m :| 0 <= m < |prefix| && prefix[m] == hs[k].value;
        assert cands[m] == hs[k].value;
      }
      StepCompatible(text, hs, c);
    }
  }

  /** Kept ranges are never dropped by later steps. */
  lemma {:induction false} SelectGrows(text: string, cands: seq<AbnormalValue>, n: nat)
    requires n <= |cands|
    ensures forall h :: h in Select(text, cands[..n]) ==> h in Select(text, cands)
    decreases |cands| - n
  {
    if n < |cands| {
      SelectGrows(text, cands, n + 1);
      assert cands[..n + 1][..n] == cands[..n];
    } else {
      assert cands[..n] == cands;
    }
  }

  /**
   * Greedy maximality: every candidate whose text occurs is either kept or was
   * dropped because it hit a kept range at least as long. So a longer value
   * is never pre-empted by a shorter one it overlaps.
   */
  lemma {:induction false} SelectIsMaximal(text: string, cands: seq<AbnormalValue>, k: nat)
    requires LengthDescending(cands)
    requires k < |cands| && IndexOf(text, cands[k].text) != -1
    ensures exists h :: (h in Select(text, cands) &&
      ((h.value == cands[k] && h.start == IndexOf(text, cands[k].text))
       || (OneSidedOverlap(IndexOf(text, cands[k].text), IndexOf(text, cands[k].text) + |cands[k].text|, h)
           && |cands[k].text| <= |h.value.text|)))
  {
    var c := cands[k];
    var index := IndexOf(text, c.text);
    var before := Select(text, cands[..k]);
    assert cands[..k + 1][..k] == cands[..k] && cands[..k + 1][k] == c;
    SelectGrows(text, cands, k + 1);
    var after := Select(text, cands[..k + 1]);
    if OverlapsAny(before, index, index + |c.text|) {
      var m :| 0 <= m < |before| && OneSidedOverlap(index, index + |c.text|, before[m]);
      var h := before[m];
      SelectFirstOccurrences(text, cands[..k]);
      assert h in before;
      var j :| 0 <= j < k && cands[..k][j] == h.value;
      assert |c.text| <= |h.value.text|;
      assert h in after;
    } else {
      var h := Highlight(index, index + |c.text|, c);
      assert after == before + [h];
      assert h in after;
    }
  }

  // ---------------------------------------------------------------------------
  // The second sort: by ascending start, stable.

  predicate StartAscending(hs: seq<Highlight>)
  {
    forall i, j :: 0 <= i < j < |hs| ==> hs[i].start <= hs[j].start
  }

  /** Puts `h` in front of the first element that does not start before it. */
  function InsertByStart(h: Highlight, s: seq<Highlight>): (r: seq<Highlight>)
    requires StartAscending(s)
    ensures |r| == |s| + 1 && (r[0] == h || (s != [] && r[0] == s[0]))
    ensures StartAscending(r)
    ensures multiset(r) == multiset(s) + multiset{h}
  {
    if s == [] || h.start <= s[0].start then [h] + s
    else
      var t := InsertByStart(h, s[1..]);
      assert s == [s[0]] + s[1..];
      assert t[0].start >= s[0].start;
      [s[0]] + t
  }

  /** `highlights.sort((a, b) => a.start - b.start)`. */
  function SortByStart(hs: seq<Highlight>): (r: seq<Highlight>)
    ensures StartAscending(r)
    ensures multiset(r) == multiset(hs)
  {
    if hs == [] then []
    else
      assert hs == [hs[0]] + hs[1..];
      InsertByStart(hs[0], SortByStart(hs[1..]))
  }

  /** Each range ends no later than any range after it starts: sorted and pairwise disjoint. */
  predicate Chained(hs: seq<Highlight>)
  {
    forall i, j :: 0 <= i < j < |hs| ==> hs[i].end <= hs[j].start
  }

  /** `h` is compatible, as the earlier-kept range, with every element of `s`. */
  predicate KeptBefore(h: Highlight, s: seq<Highlight>)
  {
    forall k :: 0 <= k < |s| ==>
      h.end <= s[k].start || (s[k].end <= h.start && s[k].start < h.start)
  }

  /** Every element of an insertion is the inserted range or came from the list. */
  lemma InsertByStartMember(h: Highlight, s: seq<Highlight>, x: Highlight)
    requires StartAscending(s) && x in InsertByStart(h, s)
    ensures x == h || x in s
  {
    assert x in multiset(InsertByStart(h, s));
  }

  lemma {:induction false} InsertByStartChained(h: Highlight, s: seq<Highlight>)
    requires StartAscending(s) && Chained(s) && KeptBefore(h, s) && h.start <= h.end
    ensures Chained(InsertByStart(h, s))
  {
    if s == [] || h.start <= s[0].start {
      var r := [h] + s;
      forall i, j | 0 <= i < j < |r| ensures r[i].end <= r[j].start {
        if i == 0 {
          assert r[j] == s[j - 1];
        } else {
          assert r[i] == s[i - 1] && r[j] == s[j - 1];
        }
      }
    } else {
      var rest := s[1..];
      assert StartAscending(rest) && Chained(rest) && KeptBefore(h, rest) by {
        forall k | 0 <= k < |rest| ensures rest[k] == s[k + 1] { }
      }
      InsertByStartChained(h, rest);
      var t := InsertByStart(h, rest);
      var r := [s[0]] + t;
      forall i, j | 0 <= i < j < |r| ensures r[i].end <= r[j].start {
        if i == 0 {
          var x := r[j];
          assert x in t;
          InsertByStartMember(h, rest, x);
          if x != h {
            var m :| 0 <= m < |rest| && rest[m] == x;
            assert s[m + 1] == x;
          }
        } else {
          assert r[i] == t[i - 1] && r[j] == t[j - 1];
        }
      }
    }
  }

  /** Stable sorting by start turns compatible ranges into a chain: sorted and disjoint. */
  lemma {:induction false} SortByStartChained(hs: seq<Highlight>)
    requires Compatible(hs)
    requires forall k :: 0 <= k < |hs| ==> hs[k].start <= hs[k].end
    ensures Chained(SortByStart(hs))
  {
    if hs != [] {
      var rest := hs[1..];
      assert Compatible(rest) by {
        forall i, j | 0 <= i < j < |rest|
          ensures rest[i].end <= rest[j].start || (rest[j].end <= rest[i].start && rest[j].start < rest[i].start)
        {
          assert rest[i] == hs[i + 1] && rest[j] == hs[j + 1];
        }
      }
      SortByStartChained(rest);
      var s := SortByStart(rest);
      forall k | 0 <= k < |s| ensures hs[0].end <= s[k].start || (s[k].end <= hs[0].start && s[k].start < hs[0].start) {
        assert s[k] in multiset(rest);
        var m :| 0 <= m < |rest| && rest[m] == s[k];
        assert hs[m + 1] == s[k];
      }
      assert hs[0] in hs;
      InsertByStartChained(hs[0], s);
    }
  }

  // ---------------------------------------------------------------------------
  // The two loops.

  /** The first `forEach` (lines 30-46), visiting the candidates in the given order. */
  method CollectHighlights(text: string, sorted: seq<AbnormalValue>) returns (highlights: seq<Highlight>)
    ensures highlights == Select(text, sorted)
  {
    highlights := [];
    var i := 0;
    while i < |sorted|
      invariant 0 <= i <= |sorted|
      invariant highlights == Select(text, sorted[..i])
    {
      var v := sorted[i];
      var index := IndexOf(text, v.text);
      if index != -1 {
        var overlaps := OverlapsAny(highlights, index, index + |v.text|);
        if !overlaps {
          highlights := highlights + [Highlight(index, index + |v.text|, v)];
        }
      }
      assert sorted[..i + 1][..i] == sorted[..i];
      i := i + 1;
    }
    assert sorted[..i] == sorted;
  }

  /** The plain text between `lastIndex` and a range's start, as the component pushes it. */
  function Gap(text: string, from: int, to: int): seq<Segment>
    requires 0 <= from <= |text| && 0 <= to <= |text|
  {
    if to > from then [Plain(text[from..to])] else []
  }

  /** What one turn of the second loop appends to `segs`: the gap before `h` if there is one, then `h`'s mark. */
  function EmitNext(text: string, segs: seq<Segment>, lastIndex: int, h: Highlight): seq<Segment>
    requires 0 <= lastIndex <= h.start <= |text|
  {
    segs + Gap(text, lastIndex, h.start) + [MarkOf(h)]
  }

  /** One turn of the second loop keeps the rendered prefix, the marks so far and the non-empty plain pieces. */
  lemma EmitStep(text: string, highlights: seq<Highlight>, i: nat, segs: seq<Segment>, lastIndex: int)
    requires i < |highlights| && InText(text, highlights[i]) && 0 <= lastIndex <= highlights[i].start
    requires Concat(segs) == text[..lastIndex]
    requires MarkedOnly(segs) == MarksOf(highlights[..i])
    requires PlainNonEmpty(segs)
    requires MarkStarts(segs) == Starts(highlights[..i])
    ensures Concat(EmitNext(text, segs, lastIndex, highlights[i])) == text[..highlights[i].end]
    ensures MarkedOnly(EmitNext(text, segs, lastIndex, highlights[i])) == MarksOf(highlights[..i + 1])
    ensures PlainNonEmpty(EmitNext(text, segs, lastIndex, highlights[i]))
    ensures MarkStarts(EmitNext(text, segs, lastIndex, highlights[i])) == Starts(highlights[..i + 1])
  {
    var h := highlights[i];
    var before := Gap(text, lastIndex, h.start);
    var withGap := segs + before;
    assert Concat(withGap) == text[..h.start] && MarkedOnly(withGap) == MarkedOnly(segs)
           && MarkStarts(withGap) == MarkStarts(segs) by {
      if h.start > lastIndex {
        ConcatPush(segs, Plain(text[lastIndex..h.start]));
        MarkedOnlyPush(segs, Plain(text[lastIndex..h.start]));
        MarkStartsPush(segs, Plain(text[lastIndex..h.start]));
        SliceJoin(text, lastIndex, h.start);
      } else {
        assert withGap == segs;
      }
    }
    ConcatPush(withGap, MarkOf(h));
    SliceJoin(text, h.start, h.end);
    MarkedOnlyPush(withGap, MarkOf(h));
    MarkStartsPush(withGap, MarkOf(h));
    StartsPush(highlights, i);
    MarksOfPush(highlights, i);
    PlainNonEmptyAppend(segs, before);
    PlainNonEmptyAppend(withGap, [MarkOf(h)]);
  }

  lemma SliceJoin(text: string, i: int, j: int)
    requires 0 <= i <= j <= |text|
    ensures text[..i] + text[i..j] == text[..j]
  {
  }

  lemma ConcatPush(segs: seq<Segment>, s: Segment)
    ensures Concat(segs + [s]) == Concat(segs) + SegmentText(s)
  {
    assert (segs + [s])[..|segs|] == segs;
  }

  /** The second `forEach` and the tail (lines 52-111), over ranges that are sorted and disjoint. */
  method EmitSegments(text: string, highlights: seq<Highlight>) returns (segs: seq<Segment>)
    requires Chained(highlights)
    requires forall h :: h in highlights ==> InText(text, h)
    ensures Concat(segs) == text
    ensures MarkedOnly(segs) == MarksOf(highlights)
    ensures MarkStarts(segs) == Starts(highlights)
    ensures PlainNonEmpty(segs)
  {
    segs := [];
    var lastIndex := 0;
    var i := 0;
    while i < |highlights|
      invariant 0 <= i <= |highlights|
      invariant 0 <= lastIndex <= |text|
      invariant lastIndex == if i == 0 then 0 else highlights[i - 1].end
      invariant Concat(segs) == text[..lastIndex]
      invariant MarkedOnly(segs) == MarksOf(highlights[..i])
      invariant MarkStarts(segs) == Starts(highlights[..i])
      invariant PlainNonEmpty(segs)
    {
      var h := highlights[i];
      assert InText(text, h) by { assert h in highlights; }
      assert lastIndex <= h.start by {
        if i > 0 { assert highlights[i - 1].end <= highlights[i].start; }
      }
      EmitStep(text, highlights, i, segs, lastIndex);
      segs := segs + Gap(text, lastIndex, h.start) + [MarkOf(h)];
      lastIndex := h.end;
      i := i + 1;
      assert highlights[i - 1] == h;
    }
    assert highlights[..i] == highlights;
    EmitTail(text, segs, lastIndex);
    var tail := if lastIndex < |text| then [Plain(text[lastIndex..])] else [];
    segs := segs + tail;
  }

  /** The tail after the loop keeps the three facts and completes the text. */
  lemma EmitTail(text: string, segs: seq<Segment>, lastIndex: int)
    requires 0 <= lastIndex <= |text|
    requires Concat(segs) == text[..lastIndex]
    requires PlainNonEmpty(segs)
    ensures var tail := if lastIndex < |text| then [Plain(text[lastIndex..])] else [];
      Concat(segs + tail) == text && MarkedOnly(segs + tail) == MarkedOnly(segs) && PlainNonEmpty(segs + tail)
      && MarkStarts(segs + tail) == MarkStarts(segs)
  {
    if lastIndex < |text| {
      var tail := Plain(text[lastIndex..]);
      ConcatPush(segs, tail);
      MarkedOnlyPush(segs, tail);
      MarkStartsPush(segs, tail);
      assert text[..lastIndex] + text[lastIndex..] == text;
      PlainNonEmptyAppend(segs, [tail]);
    } else {
      assert segs + [] == segs;
      assert text[..lastIndex] == text;
    }
  }

  predicate PlainNonEmpty(segs: seq<Segment>)
  {
    forall k :: 0 <= k < |segs| && segs[k].Plain? ==> segs[k].text != ""
  }

  lemma PlainNonEmptyAppend(a: seq<Segment>, b: seq<Segment>)
    requires PlainNonEmpty(a) && PlainNonEmpty(b)
    ensures PlainNonEmpty(a + b)
  {
    forall k | 0 <= k < |a + b| && (a + b)[k].Plain? ensures (a + b)[k].text != "" {
      if k >= |a| { assert (a + b)[k] == b[k - |a|]; }
    }
  }

  lemma MarksOfPush(hs: seq<Highlight>, i: nat)
    requires i < |hs|
    ensures MarksOf(hs[..i + 1]) == MarksOf(hs[..i]) + [MarkOf(hs[i])]
  {
    assert hs[..i + 1][..i] == hs[..i];
  }

  // ---------------------------------------------------------------------------
  // The component.

  /**
   * `HighlightedText({ text, abnormalValues, showHighlights })`: the rendered
   * segments and the kept ranges in the order they are rendered.
   */
  method Render(text: string, abnormalValues: Option<seq<AbnormalValue>>, showHighlights: bool)
    returns (segs: seq<Segment>, highlights: seq<Highlight>)
    ensures !showHighlights || abnormalValues.None? || abnormalValues.value == [] ==>
              segs == [Plain(text)] && highlights == []
    ensures Concat(segs) == text
    ensures MarkedOnly(segs) == MarksOf(highlights)
    ensures MarkStarts(segs) == Starts(highlights)
    ensures Chained(highlights)
    ensures forall h :: h in highlights ==>
              FirstOccurrence(text, h) && abnormalValues.Some? && h.value in abnormalValues.value
    ensures abnormalValues.Some? ==> |highlights| <= |abnormalValues.value|
    ensures showHighlights && abnormalValues.Some? && abnormalValues.value != [] ==>
              highlights == SortByStart(Select(text, SortByLength(abnormalValues.value)))
  {
    if !showHighlights || abnormalValues.None? || |abnormalValues.value| == 0 {
      segs := [Plain(text)];
      highlights := [];
      assert Concat(segs) == Concat([]) + text;
      assert MarkedOnly(segs) == [];
      assert MarkStarts(segs) == [];
      return;
    }
    var values := abnormalValues.value;
    var sortedValues := SortByLength(values);
    var kept := CollectHighlights(text, sortedValues);
    SelectFirstOccurrences(text, sortedValues);
    SelectCompatible(text, sortedValues);
    SortByLengthPermutes(values);
    forall k | 0 <= k < |kept| ensures kept[k].start <= kept[k].end {
      assert kept[k] in kept;
    }
    SortByStartChained(kept);
    highlights := SortByStart(kept);
    forall h | h in highlights ensures FirstOccurrence(text, h) && h.value in values {
      assert h in multiset(kept);
      assert h.value in multiset(sortedValues);
    }
    assert |highlights| == |multiset(kept)| && |sortedValues| == |multiset(values)|;
    segs := EmitSegments(text, highlights);
  }
}
