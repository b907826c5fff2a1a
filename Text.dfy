/**
 * The JavaScript string operations the editor relies on, over `string` (a
 * sequence of characters): `indexOf`, `includes`, `trim`, `split('\n')`,
 * `join('\n')` and the decimal rendering of a non-negative integer.
 */
module Text {

  /** `p` occurs in `s` starting at index `k`. */
  predicate OccursAt(s: string, p: string, k: int)
  {
    0 <= k && k + |p| <= |s| && s[k..k + |p|] == p
  }

  /** `s.indexOf(p, k)` for `k <= |s|`: the first occurrence at or after `k`, or -1. */
  function IndexOfFrom(s: string, p: string, k: nat): (r: int)
    requires k <= |s|
    ensures r == -1 || (k <= r && OccursAt(s, p, r))
    ensures r == -1 ==> forall j :: k <= j ==> !OccursAt(s, p, j)
    ensures r != -1 ==> forall j :: k <= j < r ==> !OccursAt(s, p, j)
    decreases |s| - k
  {
    if k + |p| > |s| then -1
    else if s[k..k + |p|] == p then k
    else IndexOfFrom(s, p, k + 1)
  }

  /** `s.indexOf(p)`: the index of the first occurrence of `p` in `s`, or -1; the empty pattern is found at 0. */
  function IndexOf(s: string, p: string): (r: int)
    ensures r == -1 <==> forall j :: !OccursAt(s, p, j)
    ensures r != -1 ==> OccursAt(s, p, r) && forall j :: 0 <= j < r ==> !OccursAt(s, p, j)
  {
    IndexOfFrom(s, p, 0)
  }

  /** `s.includes(p)`. */
  predicate Contains(s: string, p: string)
  {
    IndexOf(s, p) != -1
  }

  /** The characters `String.prototype.trim` and the regular expression class `\s` treat as white space. */
  predicate IsWhitespace(c: char)
  {
    c == ' ' || c == '\t' || c == '\n' || c == '\r' || c == '\U{000B}' || c == '\U{000C}'
    || c == '\U{00A0}' || c == '\U{1680}' || ('\U{2000}' <= c <= '\U{200A}')
    || c == '\U{2028}' || c == '\U{2029}' || c == '\U{202F}' || c == '\U{205F}'
    || c == '\U{3000}' || c == '\U{FEFF}'
  }

  /** Drops leading white space (also the effect of a leading `\s*` in a regular expression). */
  function TrimStart(s: string): (r: string)
    ensures |r| <= |s| && r == s[|s| - |r|..]
    ensures r == [] || !IsWhitespace(r[0])
    ensures forall i :: 0 <= i < |s| - |r| ==> IsWhitespace(s[i])
  {
    if s != [] && IsWhitespace(s[0]) then TrimStart(s[1..]) else s
  }

  /** Drops trailing white space. */
  function TrimEnd(s: string): (r: string)
    ensures |r| <= |s| && r == s[..|r|]
    ensures r == [] || !IsWhitespace(r[|r| - 1])
    ensures forall i :: |r| <= i < |s| ==> IsWhitespace(s[i])
  {
    if s != [] && IsWhitespace(s[|s| - 1]) then TrimEnd(s[..|s| - 1]) else s
  }

  /** Neither starts nor ends with white space. */
  predicate Trimmed(s: string)
  {
    s == [] || (!IsWhitespace(s[0]) && !IsWhitespace(s[|s| - 1]))
  }

  /** `r` is what remains of `s` once some leading and some trailing white space is dropped. */
  predicate SliceBetweenWhitespace(r: string, s: string)
  {
    exists i :: 0 <= i <= |s| && |r| <= |s| - i && r == s[i..][..|r|]
                && (forall k :: 0 <= k < i ==> IsWhitespace(s[k]))
                && (forall k :: i + |r| <= k < |s| ==> IsWhitespace(s[k]))
  }

  /**
   * `s.trim()`: the slice of `s` that remains once the white space at both
   * ends is dropped.
   */
  function Trim(s: string): (r: string)
    ensures Trimmed(r)
    ensures forall c :: c in r ==> c in s
  {
    var t := TrimStart(s);
    var r := TrimEnd(t);
    assert forall c :: c in r ==> c in t;
    assert forall c :: c in t ==> c in s;
    r
  }

  /**
   * What `Trim` keeps: the slice of `s` after its leading and before its
   * trailing white space (stated apart from `Trim` so that its callers do not
   * carry the quantifiers).
   */
  lemma TrimIsSlice(s: string)
    ensures SliceBetweenWhitespace(Trim(s), s)
  {
    var t := TrimStart(s);
    var r := TrimEnd(t);
    var i := |s| - |t|;
    assert 0 <= i <= |s| && |r| <= |s| - i && r == s[i..][..|r|]
           && (forall k :: 0 <= k < i ==> IsWhitespace(s[k]))
           && (forall k :: i + |r| <= k < |s| ==> IsWhitespace(s[k])) by {
      assert t == s[i..];
      forall k | i + |r| <= k < |s| ensures IsWhitespace(s[k]) {
        assert s[k] == t[k - i];
      }
    }
  }

  /** Trimming is empty exactly when the string is all white space: `!s.trim()` in JavaScript. */
  lemma TrimEmpty(s: string)
    ensures Trim(s) == [] <==> forall i :: 0 <= i < |s| ==> IsWhitespace(s[i])
  {
    var t := TrimStart(s);
    if Trim(s) == [] {
      // `t` starts with a non-white-space character unless it is empty.
      assert t == [];
    }
  }

  /** Trimming leaves an already trimmed string alone. */
  lemma TrimOfTrimmed(s: string)
    requires Trimmed(s)
    ensures Trim(s) == s
  {
  }

  /** `s.split('\n')`: the pieces between line feeds; never empty, `[""]` for the empty string. */
  function SplitLines(s: string): (r: seq<string>)
    ensures |r| >= 1
    ensures forall k :: 0 <= k < |r| ==> '\n' !in r[k]
  {
    if s == [] then [""]
    else
      var rest := SplitLines(s[1..]);
      if s[0] == '\n' then [""] + rest
      else [[s[0]] + rest[0]] + rest[1..]
  }

  /** `parts.join('\n')`. */
  function JoinLines(parts: seq<string>): string
  {
    if |parts| == 0 then ""
    else if |parts| == 1 then parts[0]
    else parts[0] + "\n" + JoinLines(parts[1..])
  }

  /** Joining the pieces of a split gives back the string. */
  lemma {:induction false} JoinSplitLines(s: string)
    ensures JoinLines(SplitLines(s)) == s
  {
    if s != [] {
      var rest := SplitLines(s[1..]);
      JoinSplitLines(s[1..]);
      if s[0] == '\n' {
        assert JoinLines([""] + rest) == "" + "\n" + JoinLines(rest);
        assert s == [s[0]] + s[1..];
      } else {
        var r := [[s[0]] + rest[0]] + rest[1..];
        if |rest| == 1 {
          assert s == [s[0]] + rest[0];
        } else {
          assert r[1..] == rest[1..];
          assert JoinLines(rest) == rest[0] + "\n" + JoinLines(rest[1..]);
          assert s == [s[0]] + rest[0] + "\n" + JoinLines(rest[1..]);
        }
      }
    }
  }

  /** A line without line feeds in front of `t` extends the first piece of `t`'s split. */
  lemma {:induction false} SplitLinesPrefix(p: string, t: string)
    requires '\n' !in p
    ensures SplitLines(p + t) == [p + SplitLines(t)[0]] + SplitLines(t)[1..]
  {
    if p != [] {
      var st := SplitLines(t);
      assert (p + t)[0] == p[0] && (p + t)[1..] == p[1..] + t;
      SplitLinesPrefix(p[1..], t);
      assert [p[0]] + (p[1..] + st[0]) == p + st[0];
    } else {
      var st := SplitLines(t);
      assert p + t == t && p + st[0] == st[0];
      assert st == [st[0]] + st[1..];
    }
  }

  /** Splitting a join of line-feed-free pieces gives the pieces back. */
  lemma {:induction false} SplitJoinLines(parts: seq<string>)
    requires |parts| >= 1
    requires forall k :: 0 <= k < |parts| ==> '\n' !in parts[k]
    ensures SplitLines(JoinLines(parts)) == parts
  {
    if |parts| == 1 {
      SplitLinesPrefix(parts[0], "");
      assert parts[0] + "" == parts[0];
    } else {
      var tail := JoinLines(parts[1..]);
      SplitJoinLines(parts[1..]);
      assert parts[0] + "\n" + tail == parts[0] + ("\n" + tail);
      SplitLinesPrefix(parts[0], "\n" + tail);
      assert ("\n" + tail)[1..] == tail;
      assert parts[0] + "" == parts[0];
      assert parts == [parts[0]] + parts[1..];
    }
  }

  /** The decimal digits of `n`, as `String(n)` or a template literal renders a non-negative integer. */
  function Decimal(n: nat): (r: string)
    ensures |r| >= 1
    ensures forall k :: 0 <= k < |r| ==> '0' <= r[k] <= '9'
  {
    var d := [('0' as int + n % 10) as char];
    if n < 10 then d else Decimal(n / 10) + d
  }

  /** The number a string of decimal digits denotes, most significant digit first. */
  function DigitsValue(s: string): int
  {
    if s == [] then 0 else DigitsValue(s[..|s| - 1]) * 10 + (s[|s| - 1] as int - '0' as int)
  }

  /** `Decimal` renders exactly its number: reading the digits back gives `n`. */
  lemma {:induction false} DecimalValue(n: nat)
    ensures DigitsValue(Decimal(n)) == n
  {
    if n >= 10 {
      DecimalValue(n / 10);
      var r := Decimal(n);
      assert r[..|r| - 1] == Decimal(n / 10);
    }
  }
}
