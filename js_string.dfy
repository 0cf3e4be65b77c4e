/**
 * The JavaScript string operations the plugin calls, on `seq<char>`:
 * `replace(/\r\n?/g, '\n')`, `trim()`, `replace(/[\s\r\n]+/g, '')`,
 * `indexOf`, `slice`, `split` on one character, `join` and `startsWith`.
 */
module JsString {

  /**
   * Stands in for the whitespace set of JavaScript's `\s` and of `trim()`
   * (WhiteSpace and LineTerminator of ECMA-262); the Unicode space
   * separators other than U+00A0 are not listed.
   */
  predicate IsSpace(c: char) {
    c == ' ' || c == '\t' || c == '\n' || c == '\r' || c == '\U{000B}' || c == '\U{000C}'
    || c == '\U{00A0}' || c == '\U{2028}' || c == '\U{2029}' || c == '\U{FEFF}'
  }

  /** The characters JavaScript's regex `.` does not match. */
  predicate IsLineTerminator(c: char) {
    c == '\n' || c == '\r' || c == '\U{2028}' || c == '\U{2029}'
  }

  lemma LineTerminatorIsSpace(c: char)
    ensures IsLineTerminator(c) ==> IsSpace(c)
  {
  }

  predicate NoSpace(s: string) {
    forall i :: 0 <= i < |s| ==> !IsSpace(s[i])
  }

  predicate AllSpace(s: string) {
    forall i :: 0 <= i < |s| ==> IsSpace(s[i])
  }

  predicate NoCarriageReturn(s: string) {
    forall i :: 0 <= i < |s| ==> s[i] != '\r'
  }

  // ---------------------------------------------------------------------
  // s.replace(/\r\n?/g, '\n')
  // ---------------------------------------------------------------------

  /** Every CRLF pair and every lone CR becomes one LF. */
  function NormalizeLineBreaks(s: string): (r: string)
    ensures NoCarriageReturn(r)
    ensures |r| <= |s|
  {
    if s == [] then []
    else if s[0] == '\r' then
      if |s| > 1 && s[1] == '\n' then "\n" + NormalizeLineBreaks(s[2..])
      else "\n" + NormalizeLineBreaks(s[1..])
    else [s[0]] + NormalizeLineBreaks(s[1..])
  }

  /** Text that already has no CR is left as it is. */
  lemma {:induction false} NormalizeLineBreaksIdentity(s: string)
    requires NoCarriageReturn(s)
    ensures NormalizeLineBreaks(s) == s
  {
    if s != [] {
      NormalizeLineBreaksIdentity(s[1..]);
    }
  }

  /** A CR-free prefix passes through unchanged, and normalising continues after it. */
  lemma {:induction false} NormalizeAfterCrFree(a: string, b: string)
    requires NoCarriageReturn(a)
    ensures NormalizeLineBreaks(a + b) == a + NormalizeLineBreaks(b)
  {
    if a == [] {
      assert a + b == b;
    } else {
      assert (a + b)[0] == a[0] && (a + b)[1..] == a[1..] + b;
      NormalizeAfterCrFree(a[1..], b);
      assert [a[0]] + (a[1..] + NormalizeLineBreaks(b)) == a + NormalizeLineBreaks(b);
    }
  }

  /** Each CRLF pair becomes one LF; the text around it is kept. */
  lemma NormalizeCrLf(a: string, b: string)
    requires NoCarriageReturn(a)
    ensures NormalizeLineBreaks(a + "\r\n" + b) == a + "\n" + NormalizeLineBreaks(b)
  {
    NormalizeAfterCrFree(a, "\r\n" + b);
    assert a + "\r\n" + b == a + ("\r\n" + b);
    assert ("\r\n" + b)[2..] == b;
  }

  /** A CR not followed by LF becomes one LF; the text around it is kept. */
  lemma NormalizeLoneCr(a: string, b: string)
    requires NoCarriageReturn(a)
    requires b == [] || b[0] != '\n'
    ensures NormalizeLineBreaks(a + "\r" + b) == a + "\n" + NormalizeLineBreaks(b)
  {
    NormalizeAfterCrFree(a, "\r" + b);
    assert a + "\r" + b == a + ("\r" + b);
    assert ("\r" + b)[1..] == b;
  }

  /** Normalising twice is normalising once. */
  lemma NormalizeLineBreaksIdempotent(s: string)
    ensures NormalizeLineBreaks(NormalizeLineBreaks(s)) == NormalizeLineBreaks(s)
  {
    NormalizeLineBreaksIdentity(NormalizeLineBreaks(s));
  }

  // ---------------------------------------------------------------------
  // s.trim()
  // ---------------------------------------------------------------------

  /** Number of whitespace characters at the start of s. */
  function LeadingSpace(s: string): (n: nat)
    ensures n <= |s|
    ensures forall i :: 0 <= i < n ==> IsSpace(s[i])
    ensures n < |s| ==> !IsSpace(s[n])
  {
    if s == [] || !IsSpace(s[0]) then 0 else 1 + LeadingSpace(s[1..])
  }

  /** Number of whitespace characters at the end of s. */
  function TrailingSpace(s: string): (n: nat)
    ensures n <= |s|
    ensures forall i :: |s| - n <= i < |s| ==> IsSpace(s[i])
    ensures n < |s| ==> !IsSpace(s[|s| - n - 1])
  {
    if s == [] || !IsSpace(s[|s| - 1]) then 0
    else 1 + TrailingSpace(s[..|s| - 1])
  }

  /**
   * The text with its leading and trailing whitespace removed: s splits into
   * whitespace, r and whitespace, and r neither starts nor ends with whitespace.
   */
  function Trim(s: string): (r: string)
    ensures |r| <= |s|
    ensures r == [] || (!IsSpace(r[0]) && !IsSpace(r[|r| - 1]))
    ensures LeadingSpace(s) + |r| <= |s| && r == s[LeadingSpace(s)..LeadingSpace(s) + |r|]
    ensures AllSpace(s[..LeadingSpace(s)]) && AllSpace(s[LeadingSpace(s) + |r|..])
  {
    var a := LeadingSpace(s);
    var t := s[a..];
    var b := TrailingSpace(t);
    var r := t[..|t| - b];
    assert r == s[a..a + |r|];
    assert s[a + |r|..] == t[|t| - b..];
    assert r != [] ==> r[0] == s[a] && r[|r| - 1] == t[|t| - b - 1];
    r
  }

  /** Trimming text that starts and ends with a non-space, then one LF, removes just that LF. */
  lemma TrimDropsFinalLineFeed(x: string)
    requires x != [] && !IsSpace(x[0]) && !IsSpace(x[|x| - 1])
    ensures Trim(x + "\n") == x
  {
    var s := x + "\n";
    assert LeadingSpace(s) == 0;
    assert s[|s| - 1] == '\n' && s[|s| - 2] == x[|x| - 1];
    assert TrailingSpace(s) == 1;
  }

  // ---------------------------------------------------------------------
  // s.replace(/[\s\r\n]+/g, '')
  // ---------------------------------------------------------------------

  /** s with every whitespace character deleted and every other one kept, in order. */
  function StripSpace(s: string): (r: string)
    ensures NoSpace(r)
    ensures |r| <= |s|
  {
    if s == [] then []
    else if IsSpace(s[0]) then StripSpace(s[1..])
    else [s[0]] + StripSpace(s[1..])
  }

  /** Only whitespace is deleted: every other character keeps its number of occurrences. */
  lemma {:induction false} StripSpaceKeepsOthers(s: string)
    ensures forall c :: !IsSpace(c) ==> multiset(StripSpace(s))[c] == multiset(s)[c]
  {
    if s != [] {
      StripSpaceKeepsOthers(s[1..]);
      assert s == [s[0]] + s[1..];
    }
  }

  lemma {:induction false} StripSpaceAppend(a: string, b: string)
    ensures StripSpace(a + b) == StripSpace(a) + StripSpace(b)
  {
    if a != [] {
      assert (a + b)[1..] == a[1..] + b;
      StripSpaceAppend(a[1..], b);
    } else {
      assert a + b == b;
    }
  }

  lemma {:induction false} StripSpaceIdentity(s: string)
    requires NoSpace(s)
    ensures StripSpace(s) == s
  {
    if s != [] {
      StripSpaceIdentity(s[1..]);
    }
  }

  // ---------------------------------------------------------------------
  // s.indexOf(t) and s.slice(start, end)
  // ---------------------------------------------------------------------

  predicate OccursAt(s: string, t: string, i: nat) {
    i + |t| <= |s| && s[i..i + |t|] == t
  }

  /** First position at or after `from` where t occurs in s, or -1. */
  function IndexOfFrom(s: string, t: string, from: nat): (r: int)
    requires from <= |s|
    ensures r == -1 || (from <= r <= |s| && OccursAt(s, t, r))
    ensures forall j :: from <= j <= |s| && (r == -1 || j < r) ==> !OccursAt(s, t, j)
    decreases |s| - from
  {
    if OccursAt(s, t, from) then from
    else if from == |s| then -1
    else IndexOfFrom(s, t, from + 1)
  }

  /** `s.indexOf(t)`: the first position where t occurs, -1 when it does not. */
  function IndexOf(s: string, t: string): (r: int)
    ensures r == -1 || (0 <= r <= |s| && OccursAt(s, t, r))
    ensures forall j :: 0 <= j <= |s| && (r == -1 || j < r) ==> !OccursAt(s, t, j)
  {
    IndexOfFrom(s, t, 0)
  }

  /** How `slice` resolves an index: negative counts from the end, then clamped to 0..n. */
  function SliceIndex(i: int, n: nat): (k: nat)
    ensures k <= n
    ensures 0 <= i <= n ==> k == i
  {
    if i < 0 then (if n + i < 0 then 0 else n + i)
    else if i > n then n
    else i
  }

  /** `s.slice(start, end)`: empty when the resolved start is not before the resolved end. */
  function Slice(s: string, start: int, end: int): (r: string)
    ensures 0 <= start <= end <= |s| ==> r == s[start..end]
    ensures 0 <= end <= start ==> r == []
    ensures 0 <= start <= |s| <= end ==> r == s[start..]
  {
    var a := SliceIndex(start, |s|);
    var b := SliceIndex(end, |s|);
    if a < b then s[a..b] else []
  }

  // ---------------------------------------------------------------------
  // s.split(sep), parts.join(sep), s.startsWith(p)
  // ---------------------------------------------------------------------

  /** `s.split(sep)` for a one-character separator: at least one part, none containing sep. */
  function Split(s: string, sep: char): (r: seq<string>)
    ensures |r| >= 1
    ensures forall i :: 0 <= i < |r| ==> sep !in r[i]
    ensures |r[0]| <= |s| && r[0] == s[..|r[0]|]
    ensures |r[0]| == |s| || s[|r[0]|] == sep
  {
    if s == [] then [[]]
    else
      var rest := Split(s[1..], sep);
      if s[0] == sep then [[]] + rest
      else [[s[0]] + rest[0]] + rest[1..]
  }

  /** `parts.join(sep)`. */
  function Join(parts: seq<string>, sep: string): string {
    if |parts| == 0 then []
    else if |parts| == 1 then parts[0]
    else parts[0] + sep + Join(parts[1..], sep)
  }

  /** Splitting at a character and joining with it gives the text back. */
  lemma {:induction false} JoinSplit(s: string, sep: char)
    ensures Join(Split(s, sep), [sep]) == s
  {
    if s != [] {
      JoinSplit(s[1..], sep);
      var rest := Split(s[1..], sep);
      if s[0] != sep && |rest| > 1 {
        assert Join(rest, [sep]) == rest[0] + [sep] + Join(rest[1..], [sep]);
        assert [[s[0]] + rest[0]] + rest[1..] == [[s[0]] + rest[0]] + rest[1..];
      }
    }
  }

  /** Text without the separator splits into itself alone. */
  lemma {:induction false} SplitWithoutSeparator(s: string, sep: char)
    requires sep !in s
    ensures Split(s, sep) == [s]
  {
    if s != [] {
      assert s[0] != sep && sep !in s[1..];
      SplitWithoutSeparator(s[1..], sep);
      assert [s[0]] + s[1..] == s;
    }
  }

  /** Splitting at the first separator: the text before it is the first part. */
  lemma {:induction false} SplitAtSeparator(a: string, b: string, sep: char)
    requires sep !in a
    ensures Split(a + [sep] + b, sep) == [a] + Split(b, sep)
  {
    var s := a + [sep] + b;
    if a == [] {
      assert s[0] == sep && s[1..] == b;
    } else {
      assert s[0] == a[0] && s[1..] == a[1..] + [sep] + b;
      SplitAtSeparator(a[1..], b, sep);
      assert [a[0]] + a[1..] == a;
    }
  }

  /** Joining parts that hold no separator and splitting again gives the parts back. */
  lemma {:induction false} SplitJoin(parts: seq<string>, sep: char)
    requires |parts| >= 1
    requires forall i :: 0 <= i < |parts| ==> sep !in parts[i]
    ensures Split(Join(parts, [sep]), sep) == parts
  {
    if |parts| == 1 {
      SplitWithoutSeparator(parts[0], sep);
    } else {
      SplitJoin(parts[1..], sep);
      SplitAtSeparator(parts[0], Join(parts[1..], [sep]), sep);
      assert [parts[0]] + parts[1..] == parts;
    }
  }

  /** The parts of a split, concatenated: `parts.join('')`. */
  function Concat(parts: seq<string>): string {
    if parts == [] then [] else parts[0] + Concat(parts[1..])
  }

  predicate StartsWith(s: string, prefix: string) {
    |prefix| <= |s| && s[..|prefix|] == prefix
  }

  predicate EndsWith(s: string, suffix: string) {
    |suffix| <= |s| && s[|s| - |suffix|..] == suffix
  }
}
