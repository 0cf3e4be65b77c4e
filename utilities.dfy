/**
 * `formatPrivateKey`: rewrites loosely formatted PEM text (a certificate or
 * a key) as one BEGIN line, the base64 body wrapped at 64 columns, one END
 * line and a final line feed, the layout section 2 of RFC 7468 asks of
 * generators. Neither the base64 nor the agreement of the two labels is checked.
 */
module Utilities {
  import opened Wrappers
  import opened JsString

  const BeginKeyword: string := "-----BEGIN "
  const EndKeyword: string := "-----END "
  const Dashes: string := "-----"
  const LineWidth: nat := 64

  /** The one error: 'Invalid PEM format: missing BEGIN/END headers'. */
  datatype PemError = MissingHeaders

  /** A regex match: where it starts and how many characters it spans. */
  datatype Span = Span(start: nat, len: nat)

  function SpanText(s: string, m: Span): string
    requires m.start + m.len <= |s|
  {
    s[m.start..m.start + m.len]
  }

  // ---------------------------------------------------------------------
  // The markers: /-----BEGIN [^-]+-----/ and /-----END [^-]+-----/
  // ---------------------------------------------------------------------

  /** t is the whole text of one marker: the keyword, a label without hyphens, five hyphens. */
  predicate IsMarker(t: string, keyword: string) {
    && |keyword| + 5 < |t|
    && t[..|keyword|] == keyword
    && t[|t| - 5..] == Dashes
    && forall k :: |keyword| <= k < |t| - 5 ==> t[k] != '-'
  }

  /** How many characters the greedy `[^-]+` takes from position i: the whole run of non-hyphens. */
  function NonHyphenRun(s: string, i: nat): (n: nat)
    requires i <= |s|
    ensures i + n <= |s|
    ensures forall k :: i <= k < i + n ==> s[k] != '-'
    ensures i + n == |s| || s[i + n] == '-'
    decreases |s| - i
  {
    if i == |s| || s[i] == '-' then 0 else 1 + NonHyphenRun(s, i + 1)
  }

  /**
   * The regex `keyword[^-]+-----` tried at position i: the length of the match,
   * or None. Backtracking cannot help the greedy run, since a shorter run would
   * leave a non-hyphen where the first of the five hyphens must be.
   */
  function MatchAt(s: string, i: nat, keyword: string): (r: Option<nat>)
    requires i <= |s|
    ensures r.Some? ==> i + r.value <= |s| && IsMarker(s[i..i + r.value], keyword)
  {
    var p := i + |keyword|;
    if p <= |s| && s[i..p] == keyword then
      var k := NonHyphenRun(s, p);
      if 0 < k && p + k + 5 <= |s| && s[p + k..p + k + 5] == Dashes then
        var t := s[i..p + k + 5];
        assert t[..|keyword|] == keyword;
        assert t[|t| - 5..] == Dashes;
        assert forall j :: |keyword| <= j < |t| - 5 ==> t[j] == s[i + j];
        Some(|keyword| + k + 5)
      else None
    else None
  }

  /** Whatever follows a marker, the regex matches exactly that marker where it starts. */
  lemma MarkerMatchesAt(s: string, i: nat, keyword: string, n: nat)
    requires i + n <= |s| && IsMarker(s[i..i + n], keyword)
    ensures MatchAt(s, i, keyword) == Some(n)
  {
    var t := s[i..i + n];
    var p := i + |keyword|;
    assert s[i..p] == t[..|keyword|];
    assert s[i + n - 5] == t[n - 5] == '-';
    assert forall k :: p <= k < i + n - 5 ==> s[k] == t[k - i] && s[k] != '-';
    var run := NonHyphenRun(s, p);
    assert run == n - |keyword| - 5;
    assert s[p + run..p + run + 5] == t[n - 5..];
  }

  /** The leftmost match at or after `from`, the way `String.prototype.match` searches. */
  function FirstMatchFrom(s: string, keyword: string, from: nat): (r: Option<Span>)
    requires from <= |s|
    ensures r.Some? ==> from <= r.value.start && r.value.start + r.value.len <= |s|
    ensures r.Some? ==> MatchAt(s, r.value.start, keyword) == Some(r.value.len)
    ensures forall j :: from <= j <= |s| && (r.None? || j < r.value.start) ==> MatchAt(s, j, keyword).None?
    decreases |s| - from
  {
    match MatchAt(s, from, keyword)
    case Some(n) => Some(Span(from, n))
    case None => if from == |s| then None else FirstMatchFrom(s, keyword, from + 1)
  }

  /** `s.match(/keyword[^-]+-----/)`: the leftmost match, or None (JavaScript's null). */
  function FirstMatch(s: string, keyword: string): (r: Option<Span>)
    ensures r.Some? ==> r.value.start + r.value.len <= |s|
    ensures r.Some? ==> IsMarker(SpanText(s, r.value), keyword)
    ensures r.Some? ==> forall j :: 0 <= j < r.value.start ==> MatchAt(s, j, keyword).None?
    ensures r.None? <==> forall j :: 0 <= j <= |s| ==> MatchAt(s, j, keyword).None?
  {
    FirstMatchFrom(s, keyword, 0)
  }

  /** A match at p with none before it is the leftmost match. */
  lemma FirstMatchIs(s: string, keyword: string, p: nat, n: nat)
    requires p <= |s| && MatchAt(s, p, keyword) == Some(n)
    requires forall j :: 0 <= j < p ==> MatchAt(s, j, keyword).None?
    ensures FirstMatch(s, keyword) == Some(Span(p, n))
  {
    var r := FirstMatch(s, keyword);
    assert r.Some?;
    assert !(r.value.start < p);
    assert !(p < r.value.start);
    assert MatchAt(s, r.value.start, keyword) == Some(r.value.len) == Some(n);
  }

  /** An occurrence with none before it is what `indexOf` returns. */
  lemma IndexOfIs(s: string, t: string, p: nat)
    requires OccursAt(s, t, p)
    requires forall j :: 0 <= j < p ==> !OccursAt(s, t, j)
    ensures IndexOf(s, t) == p
  {
    var r := IndexOf(s, t);
    assert r != -1 && r <= p;
  }

  /** Where the regex finds no match, the text of a marker does not occur either. */
  lemma MarkerAbsentWithoutMatch(s: string, keyword: string, t: string, j: nat)
    requires IsMarker(t, keyword)
    requires j <= |s| && MatchAt(s, j, keyword).None?
    ensures !OccursAt(s, t, j)
  {
    if OccursAt(s, t, j) {
      MarkerMatchesAt(s, j, keyword, |t|);
    }
  }

  /** `s.indexOf(matchText)` finds the leftmost match where the regex found it. */
  lemma IndexOfFirstMatch(s: string, keyword: string, m: Span)
    requires FirstMatch(s, keyword) == Some(m)
    ensures IndexOf(s, SpanText(s, m)) == m.start
  {
    var t := SpanText(s, m);
    forall j | 0 <= j < m.start
      ensures !OccursAt(s, t, j)
    {
      MarkerAbsentWithoutMatch(s, keyword, t, j);
    }
    IndexOfIs(s, t, m.start);
  }

  // ---------------------------------------------------------------------
  // The body: body.match(/.{1,64}/g)?.join('\n') ?? ''
  // ---------------------------------------------------------------------

  /** Length of the match of `.{1,64}` at the start of s (0 when s starts with a line terminator). */
  function DotRun(s: string, limit: nat): (n: nat)
    ensures n <= |s| && n <= limit
    ensures forall k :: 0 <= k < n ==> !IsLineTerminator(s[k])
    ensures n == |s| || n == limit || IsLineTerminator(s[n])
  {
    if s == [] || limit == 0 || IsLineTerminator(s[0]) then 0 else 1 + DotRun(s[1..], limit - 1)
  }

  /**
   * `s.match(/.{1,64}/g)` as a list: every match in order, line terminators
   * skipped; each match is 1 to 64 characters with no line terminator.
   */
  function DotMatches(s: string): (r: seq<string>)
    ensures forall i :: 0 <= i < |r| ==> 1 <= |r[i]| <= LineWidth
    ensures forall i, k :: 0 <= i < |r| && 0 <= k < |r[i]| ==> !IsLineTerminator(r[i][k])
    decreases |s|
  {
    if s == [] then []
    else if IsLineTerminator(s[0]) then DotMatches(s[1..])
    else
      var n := DotRun(s, LineWidth);
      assert n >= 1;
      [s[..n]] + DotMatches(s[n..])
  }

  /** `body.match(/.{1,64}/g)?.join('\n') ?? ''`: a global match returns null when nothing matches. */
  function WrapBody(body: string): string {
    var matches := if DotMatches(body) == [] then None else Some(DotMatches(body));
    match matches
    case None => ""
    case Some(lines) => Join(lines, "\n")
  }

  lemma WrapBodyIsJoin(body: string)
    ensures WrapBody(body) == Join(DotMatches(body), "\n")
  {
  }

  /** Reference definition of the wrapping: consecutive 64-character pieces, the last one shorter. */
  function Chunks(payload: string): seq<string>
    decreases |payload|
  {
    if payload == [] then []
    else if |payload| <= LineWidth then [payload]
    else [payload[..LineWidth]] + Chunks(payload[LineWidth..])
  }

  /** The line layout RFC 7468 asks of generators, with the payload free of whitespace. */
  predicate WellWrapped(lines: seq<string>) {
    && (forall i :: 0 <= i < |lines| ==> 1 <= |lines[i]| <= LineWidth && NoSpace(lines[i]))
    && (forall i :: 0 <= i < |lines| - 1 ==> |lines[i]| == LineWidth)
  }

  /** The 64-column pieces of a whitespace-free payload are well wrapped and concatenate back to it. */
  lemma {:induction false} ChunksWellWrapped(payload: string)
    requires NoSpace(payload)
    ensures WellWrapped(Chunks(payload))
    ensures Concat(Chunks(payload)) == payload
  {
    if |payload| > LineWidth {
      ChunksWellWrapped(payload[LineWidth..]);
      assert payload == payload[..LineWidth] + payload[LineWidth..];
    } else if payload != [] {
      assert Concat([payload]) == payload + Concat([]);
    }
  }

  /** On text without whitespace, the global `.{1,64}` match is the 64-column chunking. */
  lemma {:induction false} DotMatchesAreChunks(payload: string)
    requires NoSpace(payload)
    ensures DotMatches(payload) == Chunks(payload)
    decreases |payload|
  {
    if payload != [] {
      forall c | IsLineTerminator(c) ensures IsSpace(c) {
        LineTerminatorIsSpace(c);
      }
      var n := DotRun(payload, LineWidth);
      assert n == if |payload| <= LineWidth then |payload| else LineWidth;
      assert !IsLineTerminator(payload[0]);
      assert DotMatches(payload) == [payload[..n]] + DotMatches(payload[n..]);
      assert NoSpace(payload[n..]);
      DotMatchesAreChunks(payload[n..]);
      if |payload| <= LineWidth {
        assert payload[n..] == [] && payload[..n] == payload;
      }
    }
  }

  /** Joining whitespace-free lines with LF and deleting whitespace gives their concatenation. */
  lemma {:induction false} StripJoinedLines(lines: seq<string>)
    requires forall i :: 0 <= i < |lines| ==> NoSpace(lines[i])
    ensures StripSpace(Join(lines, "\n")) == Concat(lines)
  {
    if |lines| == 1 {
      StripSpaceIdentity(lines[0]);
      assert Concat(lines) == lines[0] + Concat([]);
    } else if |lines| > 1 {
      StripJoinedLines(lines[1..]);
      StripSpaceAppend(lines[0] + "\n", Join(lines[1..], "\n"));
      StripSpaceAppend(lines[0], "\n");
      StripSpaceIdentity(lines[0]);
    }
  }

  /** Joined whitespace-free lines hold no whitespace other than the LFs between them. */
  lemma {:induction false} JoinedLinesSpaces(lines: seq<string>)
    requires forall i :: 0 <= i < |lines| ==> NoSpace(lines[i])
    ensures forall k :: 0 <= k < |Join(lines, "\n")| ==> Join(lines, "\n")[k] == '\n' || !IsSpace(Join(lines, "\n")[k])
  {
    if |lines| > 1 {
      JoinedLinesSpaces(lines[1..]);
      var w := Join(lines, "\n");
      assert w == lines[0] + "\n" + Join(lines[1..], "\n");
      forall k | 0 <= k < |w|
        ensures w[k] == '\n' || !IsSpace(w[k])
      {
        if k < |lines[0]| {
          assert w[k] == lines[0][k];
        } else if k > |lines[0]| {
          assert w[k] == Join(lines[1..], "\n")[k - |lines[0]| - 1];
        }
      }
    }
  }

  // ---------------------------------------------------------------------
  // formatPrivateKey
  // ---------------------------------------------------------------------

  /** The text the markers are searched in: line breaks normalised to LF, then trimmed. */
  function Prepare(input: string): (pem: string)
    ensures NoCarriageReturn(pem)
  {
    Trim(NormalizeLineBreaks(input))
  }

  /** `formatPrivateKey(input)`; an exception becomes `Failure(MissingHeaders)`. */
  function FormatPrivateKey(input: string): (r: Result<string, PemError>)
    ensures input == "" ==> r == Success("")
  {
    if input == "" then Success("")
    else
      var pem := Prepare(input);
      match (FirstMatch(pem, BeginKeyword), FirstMatch(pem, EndKeyword))
      case (Some(beginMatch), Some(endMatch)) => Success(Assemble(pem, beginMatch, endMatch))
      case _ => Failure(MissingHeaders)
  }

  /** The part of `formatPrivateKey` after both markers are found: cut out the body, strip it, wrap it. */
  function Assemble(pem: string, beginMatch: Span, endMatch: Span): string
    requires beginMatch.start + beginMatch.len <= |pem| && endMatch.start + endMatch.len <= |pem|
  {
    var begin := SpanText(pem, beginMatch);
    var end := SpanText(pem, endMatch);
    var startIdx := IndexOf(pem, begin) + |begin|;
    var endIdx := IndexOf(pem, end);
    var body := StripSpace(Slice(pem, startIdx, endIdx));
    begin + "\n" + WrapBody(body) + "\n" + end + "\n"
  }

  // ---------------------------------------------------------------------
  // What formatPrivateKey promises
  // ---------------------------------------------------------------------

  predicate HasMatch(s: string, keyword: string) {
    exists j :: 0 <= j <= |s| && MatchAt(s, j, keyword).Some?
  }

  /** It throws exactly when, after the line breaks are normalised and the text trimmed, a marker is missing. */
  lemma FormatFailsExactlyWithoutMarkers(input: string)
    ensures FormatPrivateKey(input).Failure? <==>
      input != "" && (!HasMatch(Prepare(input), BeginKeyword) || !HasMatch(Prepare(input), EndKeyword))
  {
    var pem := Prepare(input);
    if input != "" {
      var b := FirstMatch(pem, BeginKeyword);
      var e := FirstMatch(pem, EndKeyword);
      if b.Some? {
        assert MatchAt(pem, b.value.start, BeginKeyword).Some?;
      }
      if e.Some? {
        assert MatchAt(pem, e.value.start, EndKeyword).Some?;
      }
    }
  }

  /** The text strictly between the end of the BEGIN marker and the start of the END marker; empty when they overlap or are out of order. */
  function Between(pem: string, b: Span, e: Span): (r: string)
    requires b.start + b.len <= |pem| && e.start <= |pem|
    ensures |r| <= |pem|
  {
    if b.start + b.len <= e.start then pem[b.start + b.len..e.start] else []
  }

  /** The output layout: BEGIN marker, the payload in 64-column lines, END marker, each followed by one LF. */
  function Canonical(begin: string, payload: string, end: string): string {
    begin + "\n" + Join(Chunks(payload), "\n") + "\n" + end + "\n"
  }

  /** Once `indexOf` finds both markers where they matched, the output is the canonical layout of the text between them. */
  lemma AssembleFromIndexes(pem: string, b: Span, e: Span)
    requires b.start + b.len <= |pem| && e.start + e.len <= |pem|
    requires IndexOf(pem, SpanText(pem, b)) == b.start && IndexOf(pem, SpanText(pem, e)) == e.start
    ensures Assemble(pem, b, e) == Canonical(SpanText(pem, b), StripSpace(Between(pem, b, e)), SpanText(pem, e))
  {
    assert Slice(pem, b.start + b.len, e.start) == Between(pem, b, e);
    var body := StripSpace(Between(pem, b, e));
    WrapBodyIsJoin(body);
    DotMatchesAreChunks(body);
  }

  /** The text between the leftmost markers, stripped and wrapped at 64 columns, between the markers themselves. */
  lemma AssembleLayout(pem: string, b: Span, e: Span)
    requires FirstMatch(pem, BeginKeyword) == Some(b)
    requires FirstMatch(pem, EndKeyword) == Some(e)
    ensures Assemble(pem, b, e) == Canonical(SpanText(pem, b), StripSpace(Between(pem, b, e)), SpanText(pem, e))
  {
    IndexOfFirstMatch(pem, BeginKeyword, b);
    IndexOfFirstMatch(pem, EndKeyword, e);
    AssembleFromIndexes(pem, b, e);
  }

  /**
   * The layout and content of a successful result: the leftmost BEGIN and END
   * matches (labels not compared) around the whitespace-free payload taken
   * from between them, in 64-column lines.
   */
  lemma FormatLayout(input: string, b: Span, e: Span)
    requires input != ""
    requires FirstMatch(Prepare(input), BeginKeyword) == Some(b)
    requires FirstMatch(Prepare(input), EndKeyword) == Some(e)
    ensures IsMarker(SpanText(Prepare(input), b), BeginKeyword)
    ensures IsMarker(SpanText(Prepare(input), e), EndKeyword)
    ensures FormatPrivateKey(input) == Success(Canonical(
      SpanText(Prepare(input), b),
      StripSpace(Between(Prepare(input), b, e)),
      SpanText(Prepare(input), e)))
  {
    AssembleLayout(Prepare(input), b, e);
  }

  /** The wrapped body: 1 to 64 characters per line, exactly 64 on all but the last, no whitespace, and nothing but the payload. */
  lemma CanonicalBody(begin: string, payload: string, end: string)
    requires NoSpace(payload)
    ensures var lines := Chunks(payload);
      && WellWrapped(lines)
      && Concat(lines) == payload
      && Canonical(begin, payload, end) == begin + "\n" + Join(lines, "\n") + "\n" + end + "\n"
  {
    ChunksWellWrapped(payload);
  }

  /** The canonical text starts with its BEGIN marker and ends with the END marker's hyphens and one LF. */
  lemma CanonicalEnds(begin: string, payload: string, end: string)
    requires IsMarker(begin, BeginKeyword) && IsMarker(end, EndKeyword)
    ensures StartsWith(Canonical(begin, payload, end), BeginKeyword)
    ensures EndsWith(Canonical(begin, payload, end), Dashes + "\n")
  {
    var out := Canonical(begin, payload, end);
    assert out[..|BeginKeyword|] == begin[..|BeginKeyword|];
    assert out[|out| - 6..] == end[|end| - 5..] + "\n";
  }

  /** A successful result starts with the BEGIN keyword and ends with five hyphens and one LF. */
  lemma FormatEnds(input: string, b: Span, e: Span)
    requires input != ""
    requires FirstMatch(Prepare(input), BeginKeyword) == Some(b)
    requires FirstMatch(Prepare(input), EndKeyword) == Some(e)
    ensures FormatPrivateKey(input).Success?
    ensures StartsWith(FormatPrivateKey(input).value, BeginKeyword)
    ensures EndsWith(FormatPrivateKey(input).value, Dashes + "\n")
  {
    FormatLayout(input, b, e);
    var pem := Prepare(input);
    CanonicalEnds(SpanText(pem, b), StripSpace(Between(pem, b, e)), SpanText(pem, e));
  }

  lemma CanonicalEmpty(begin: string, end: string)
    ensures Canonical(begin, [], end) == begin + "\n\n" + end + "\n"
  {
    assert Chunks([]) == [];
    assert begin + "\n" + [] + "\n" == begin + "\n\n";
  }

  /** An empty payload leaves the BEGIN and END lines separated by one empty line. */
  lemma EmptyBody(input: string, b: Span, e: Span)
    requires input != ""
    requires FirstMatch(Prepare(input), BeginKeyword) == Some(b)
    requires FirstMatch(Prepare(input), EndKeyword) == Some(e)
    requires StripSpace(Between(Prepare(input), b, e)) == []
    ensures FormatPrivateKey(input)
      == Success(SpanText(Prepare(input), b) + "\n\n" + SpanText(Prepare(input), e) + "\n")
  {
    FormatLayout(input, b, e);
    CanonicalEmpty(SpanText(Prepare(input), b), SpanText(Prepare(input), e));
  }

  /** When the END marker starts before the BEGIN marker ends, the payload is empty (`slice` with start >= end). */
  lemma EndBeforeBeginGivesEmptyBody(input: string, b: Span, e: Span)
    requires input != ""
    requires FirstMatch(Prepare(input), BeginKeyword) == Some(b)
    requires FirstMatch(Prepare(input), EndKeyword) == Some(e)
    requires e.start < b.start + b.len
    ensures FormatPrivateKey(input)
      == Success(SpanText(Prepare(input), b) + "\n\n" + SpanText(Prepare(input), e) + "\n")
  {
    EmptyBody(input, b, e);
  }

  // ---------------------------------------------------------------------
  // Idempotence
  // ---------------------------------------------------------------------

  /** A keyword character that differs at offset d rules out a match at i. */
  lemma NoMatchOnMismatch(s: string, i: nat, keyword: string, d: nat)
    requires i <= |s| && d < |keyword| && i + d < |s| && s[i + d] != keyword[d]
    ensures MatchAt(s, i, keyword).None?
  {
    var p := i + |keyword|;
    if p <= |s| {
      assert s[i..p][d] == s[i + d];
    }
  }

  /** Every window of a BEGIN marker differs from the END keyword at some offset. */
  lemma EndKeywordMismatchInMarker(begin: string, j: nat) returns (d: nat)
    requires IsMarker(begin, BeginKeyword) && j + |EndKeyword| <= |begin|
    ensures d < |EndKeyword| && begin[j + d] != EndKeyword[d]
  {
    if j == 0 {
      d := 5;
      assert begin[5] == begin[..|BeginKeyword|][5] == 'B';
    } else if j + 4 < |begin| - 5 {
      d := 4;
      assert 5 <= j + 4;
      if j + 4 < |BeginKeyword| {
        assert begin[j + 4] == begin[..|BeginKeyword|][j + 4] == BeginKeyword[j + 4];
      }
    } else {
      d := 5;
      assert begin[j + 5] == begin[|begin| - 5..][j + 5 - (|begin| - 5)] == '-';
    }
  }

  /**
   * pem starts with B + LF + W + LF: B a BEGIN marker, W whitespace-free
   * lines. Stated character by character.
   */
  predicate FrontLayout(pem: string, begin: string, wrapped: string) {
    && IsMarker(begin, BeginKeyword)
    && |begin| + |wrapped| + 2 <= |pem|
    && (forall k :: 0 <= k < |begin| ==> pem[k] == begin[k])
    && pem[|begin|] == '\n'
    && pem[|begin| + |wrapped| + 1] == '\n'
    && (forall k :: |begin| < k < |begin| + |wrapped| + 1 ==> pem[k] == '\n' || !IsSpace(pem[k]))
  }

  /** In B + LF + W + LF + rest no END marker starts before rest. */
  lemma NoEndMarkerBefore(pem: string, begin: string, wrapped: string, j: nat)
    requires FrontLayout(pem, begin, wrapped)
    requires j < |begin| + |wrapped| + 2
    ensures MatchAt(pem, j, EndKeyword).None?
  {
    var nl1 := |begin|;
    var nl2 := |begin| + |wrapped| + 1;
    if j + |EndKeyword| <= nl1 {
      var d := EndKeywordMismatchInMarker(begin, j);
      assert pem[j + d] == begin[j + d];
      NoMatchOnMismatch(pem, j, EndKeyword, d);
    } else if j <= nl1 {
      assert EndKeyword[nl1 - j] != '\n';
      NoMatchOnMismatch(pem, j, EndKeyword, nl1 - j);
    } else if j + |EndKeyword| <= nl2 {
      assert pem[j + 8] == '\n' || !IsSpace(pem[j + 8]);
      NoMatchOnMismatch(pem, j, EndKeyword, 8);
    } else {
      assert EndKeyword[nl2 - j] != '\n';
      NoMatchOnMismatch(pem, j, EndKeyword, nl2 - j);
    }
  }

  lemma MiddleSlice(a: string, m: string, c: string)
    ensures (a + m + c)[|a|..|a| + |m|] == m
  {
  }

  lemma Regroup(a: string, b: string, c: string, d: string, e: string)
    ensures a + b + c + d + e == a + (b + c + d) + e
  {
  }

  /** B + LF + W + LF + E + LF, with markers B and E, whitespace-free lines W and no CR, is prepared by dropping the final LF. */
  lemma PrepareCanonical(begin: string, wrapped: string, end: string)
    requires IsMarker(begin, BeginKeyword) && IsMarker(end, EndKeyword)
    requires NoCarriageReturn(begin) && NoCarriageReturn(end)
    requires forall k :: 0 <= k < |wrapped| ==> wrapped[k] == '\n' || !IsSpace(wrapped[k])
    ensures Prepare(begin + "\n" + wrapped + "\n" + end + "\n") == begin + "\n" + wrapped + "\n" + end
  {
    var pem := begin + "\n" + wrapped + "\n" + end;
    var out := pem + "\n";
    assert NoCarriageReturn(out) by {
      forall k | 0 <= k < |out| ensures out[k] != '\r' {
        var a := |begin| + 1;
        var c := a + |wrapped| + 1;
        if k < |begin| { assert out[k] == begin[k]; }
        else if a <= k < a + |wrapped| { assert out[k] == wrapped[k - a]; }
        else if c <= k < c + |end| { assert out[k] == end[k - c]; }
      }
    }
    NormalizeLineBreaksIdentity(out);
    assert pem[0] == begin[0] == Dashes[0];
    assert pem[|pem| - 1] == end[|end| - 1] == end[|end| - 5..][4] == Dashes[4];
    TrimDropsFinalLineFeed(pem);
  }

  /** In B + LF + W + LF + E the leftmost BEGIN marker is B. */
  lemma BeginOfCanonical(begin: string, wrapped: string, end: string)
    requires IsMarker(begin, BeginKeyword)
    ensures FirstMatch(begin + "\n" + wrapped + "\n" + end, BeginKeyword) == Some(Span(0, |begin|))
  {
    var pem := begin + "\n" + wrapped + "\n" + end;
    assert pem[..|begin|] == begin;
    MarkerMatchesAt(pem, 0, BeginKeyword, |begin|);
    FirstMatchIs(pem, BeginKeyword, 0, |begin|);
  }

  /** An END marker that makes up the rest of the text matches where it starts. */
  lemma EndMarkerAtTail(s: string, i: nat, end: string)
    requires i + |end| == |s| && s[i..] == end
    requires IsMarker(end, EndKeyword)
    ensures MatchAt(s, i, EndKeyword) == Some(|end|)
  {
    assert s[i..i + |end|] == end;
    MarkerMatchesAt(s, i, EndKeyword, |end|);
  }

  /** In B + LF + W + LF + E the END marker E matches where it starts. */
  lemma EndMarkerAfter(begin: string, wrapped: string, end: string)
    requires IsMarker(end, EndKeyword)
    ensures MatchAt(begin + "\n" + wrapped + "\n" + end, |begin| + |wrapped| + 2, EndKeyword) == Some(|end|)
  {
    var s := begin + "\n" + wrapped + "\n" + end;
    var i := |begin| + |wrapped| + 2;
    assert s[i..] == end;
    EndMarkerAtTail(s, i, end);
  }

  /** B + LF + W + LF + E has the front layout. */
  lemma CanonicalFront(begin: string, wrapped: string, end: string)
    requires IsMarker(begin, BeginKeyword)
    requires forall k :: 0 <= k < |wrapped| ==> wrapped[k] == '\n' || !IsSpace(wrapped[k])
    ensures FrontLayout(begin + "\n" + wrapped + "\n" + end, begin, wrapped)
  {
    var pem := begin + "\n" + wrapped + "\n" + end;
    forall k | |begin| < k < |begin| + |wrapped| + 1
      ensures pem[k] == '\n' || !IsSpace(pem[k])
    {
      assert pem[k] == wrapped[k - |begin| - 1];
    }
  }

  /** No END marker starts inside B + LF + W + LF. */
  lemma NoEndMarkerInFront(pem: string, begin: string, wrapped: string)
    requires FrontLayout(pem, begin, wrapped)
    ensures forall j :: 0 <= j < |begin| + |wrapped| + 2 ==> MatchAt(pem, j, EndKeyword).None?
  {
    forall j | 0 <= j < |begin| + |wrapped| + 2
      ensures MatchAt(pem, j, EndKeyword).None?
    {
      NoEndMarkerBefore(pem, begin, wrapped, j);
    }
  }

  /** After a front of layout B + LF + W + LF, an END match right there is the leftmost one. */
  lemma EndMatchAfterFront(pem: string, begin: string, wrapped: string, n: nat)
    requires FrontLayout(pem, begin, wrapped)
    requires MatchAt(pem, |begin| + |wrapped| + 2, EndKeyword) == Some(n)
    ensures FirstMatch(pem, EndKeyword) == Some(Span(|begin| + |wrapped| + 2, n))
  {
    NoEndMarkerInFront(pem, begin, wrapped);
    FirstMatchIs(pem, EndKeyword, |begin| + |wrapped| + 2, n);
  }

  /** In B + LF + W + LF + E the leftmost END marker is E. */
  lemma EndOfCanonical(begin: string, wrapped: string, end: string)
    requires IsMarker(begin, BeginKeyword) && IsMarker(end, EndKeyword)
    requires forall k :: 0 <= k < |wrapped| ==> wrapped[k] == '\n' || !IsSpace(wrapped[k])
    ensures FirstMatch(begin + "\n" + wrapped + "\n" + end, EndKeyword)
      == Some(Span(|begin| + |wrapped| + 2, |end|))
  {
    EndMarkerAfter(begin, wrapped, end);
    CanonicalFront(begin, wrapped, end);
    EndMatchAfterFront(begin + "\n" + wrapped + "\n" + end, begin, wrapped, |end|);
  }

  /** Between the markers of B + LF + W + LF + E lie just LF + W + LF, which strip back to the payload. */
  lemma PayloadOfCanonical(begin: string, payload: string, end: string, wrapped: string, pem: string)
    requires NoSpace(payload)
    requires wrapped == Join(Chunks(payload), "\n")
    requires pem == begin + "\n" + wrapped + "\n" + end
    ensures |begin| + |wrapped| + 2 + |end| == |pem|
    ensures SpanText(pem, Span(0, |begin|)) == begin
    ensures SpanText(pem, Span(|begin| + |wrapped| + 2, |end|)) == end
    ensures StripSpace(Between(pem, Span(0, |begin|), Span(|begin| + |wrapped| + 2, |end|))) == payload
  {
    var lines := Chunks(payload);
    ChunksWellWrapped(payload);
    MiddleSlice(begin, "\n" + wrapped + "\n", end);
    Regroup(begin, "\n", wrapped, "\n", end);
    var mid := Between(pem, Span(0, |begin|), Span(|begin| + |wrapped| + 2, |end|));
    assert mid == "\n" + wrapped + "\n";
    StripSpaceAppend("\n" + wrapped, "\n");
    StripSpaceAppend("\n", wrapped);
    assert StripSpace("\n") == [];
    StripJoinedLines(lines);
    assert StripSpace(mid) == StripSpace(wrapped) == Concat(lines);
  }

  /** Canonical PEM text (markers without CR, whitespace-free payload) is a fixed point of formatPrivateKey. */
  lemma FormatCanonicalIsFixedPoint(begin: string, payload: string, end: string)
    requires IsMarker(begin, BeginKeyword) && IsMarker(end, EndKeyword)
    requires NoCarriageReturn(begin) && NoCarriageReturn(end)
    requires NoSpace(payload)
    ensures FormatPrivateKey(Canonical(begin, payload, end)) == Success(Canonical(begin, payload, end))
  {
    var lines := Chunks(payload);
    CanonicalBody(begin, payload, end);
    var wrapped := Join(lines, "\n");
    JoinedLinesSpaces(lines);
    var out := Canonical(begin, payload, end);
    PrepareCanonical(begin, wrapped, end);
    BeginOfCanonical(begin, wrapped, end);
    EndOfCanonical(begin, wrapped, end);
    PayloadOfCanonical(begin, payload, end, wrapped, begin + "\n" + wrapped + "\n" + end);
    FormatLayout(out, Span(0, |begin|), Span(|begin| + |wrapped| + 2, |end|));
  }

  lemma SpanTextNoCarriageReturn(pem: string, m: Span)
    requires m.start + m.len <= |pem| && NoCarriageReturn(pem)
    ensures NoCarriageReturn(SpanText(pem, m))
  {
    var t := SpanText(pem, m);
    forall k | 0 <= k < |t| ensures t[k] != '\r' { assert t[k] == pem[m.start + k]; }
  }

  /** Formatting a result of formatPrivateKey again changes nothing. */
  lemma FormatIdempotent(input: string)
    requires input != "" && FormatPrivateKey(input).Success?
    ensures FormatPrivateKey(FormatPrivateKey(input).value) == FormatPrivateKey(input)
  {
    var pem := Prepare(input);
    assert FirstMatch(pem, BeginKeyword).Some? && FirstMatch(pem, EndKeyword).Some?;
    var b := FirstMatch(pem, BeginKeyword).value;
    var e := FirstMatch(pem, EndKeyword).value;
    FormatLayout(input, b, e);
    SpanTextNoCarriageReturn(pem, b);
    SpanTextNoCarriageReturn(pem, e);
    FormatCanonicalIsFixedPoint(SpanText(pem, b), StripSpace(Between(pem, b, e)), SpanText(pem, e));
  }
}
