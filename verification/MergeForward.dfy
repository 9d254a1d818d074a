/** The body of a merged forward: one bounded plain-text line made of many messages. */
module MergeForward {
  import opened Text

  const MAX_SNIPPET := 400
  const MAX_BODY := 4000

  /** " | " */
  const SEPARATOR: Bytes := [0x20, 0x7C, 0x20]
  /** U+2026 */
  const ELLIPSIS: Bytes := [0xE2, 0x80, 0xA6]

  /** A fetched source message: its sender, and its plain content or type label. */
  datatype Source = Source(sender: Bytes, text: Bytes)

  /** One finished line of the body. */
  datatype TextLine = TextLine(bytes: Bytes)

  ghost predicate IsText(s: Source) { ValidUtf8(s.sender) && ValidUtf8(s.text) }

  function Digits(n: nat): (d: Bytes)
    ensures 0 < |d| && forall i :: 0 <= i < |d| ==> 0x30 <= d[i] <= 0x39
  {
    if n < 10 then [0x30 + n] else Digits(n / 10) + [0x30 + n % 10]
  }

  function Value(d: Bytes): int {
    if d == [] then 0 else 10 * Value(d[..|d| - 1]) + d[|d| - 1] - 0x30
  }

  /** The digits of a number read back as that number. */
  lemma {:induction false} DigitsRoundTrip(n: nat)
    ensures Value(Digits(n)) == n
  {
    if n < 10 {
      assert [0x30 + n][..0] == [];
    } else {
      DigitsRoundTrip(n / 10);
      assert Digits(n)[..|Digits(n)| - 1] == Digits(n / 10);
    }
  }

  /** "[Merged {n} messages]" */
  function Header(n: nat): TextLine {
    TextLine([0x5B, 0x4D, 0x65, 0x72, 0x67, 0x65, 0x64, 0x20] + Digits(n)
             + [0x20, 0x6D, 0x65, 0x73, 0x73, 0x61, 0x67, 0x65, 0x73, 0x5D])
  }

  /** "…(truncated, {n} more)" */
  function Marker(n: nat): TextLine {
    TextLine(ELLIPSIS + [0x28, 0x74, 0x72, 0x75, 0x6E, 0x63, 0x61, 0x74, 0x65, 0x64, 0x2C, 0x20] + Digits(n)
             + [0x20, 0x6D, 0x6F, 0x72, 0x65, 0x29])
  }

  /** `lines.join(" | ")` */
  function Join(lines: seq<TextLine>): Bytes {
    if lines == [] then []
    else if |lines| == 1 then lines[0].bytes
    else Join(lines[..|lines| - 1]) + SEPARATOR + lines[|lines| - 1].bytes
  }

  /** The last character boundary at or before `p`. */
  function BoundaryBefore(s: Bytes, p: nat): (q: nat)
    ensures q <= p && IsCharBoundary(s, q)
  {
    if IsCharBoundary(s, p) then p else BoundaryBefore(s, p - 1)
  }

  lemma {:induction false} NoBoundaryBetween(s: Bytes, p: nat, i: nat)
    requires BoundaryBefore(s, p) < i <= p
    ensures !IsCharBoundary(s, i)
  {
    if i < p { NoBoundaryBetween(s, p - 1, i); }
  }

  function Snippet(text: Bytes): Bytes {
    if |text| > MAX_SNIPPET then text[..BoundaryBefore(text, MAX_SNIPPET)] + ELLIPSIS else text
  }

  /** "{who}: {snippet}" */
  function Line(s: Source): TextLine { TextLine(s.sender + [0x3A, 0x20] + Snippet(s.text)) }

  function Rendered(sources: seq<Source>, render: Source -> TextLine): (lines: seq<TextLine>)
    ensures |lines| == |sources|
  {
    seq(|sources|, i requires 0 <= i < |sources| => render(sources[i]))
  }

  /** A header and the first `n` of the rendered lines. */
  function Lines(header: TextLine, rendered: seq<TextLine>, n: nat): (lines: seq<TextLine>)
    requires n <= |rendered|
    ensures |lines| == n + 1
  {
    [header] + rendered[..n]
  }

  lemma LinesSnoc(header: TextLine, rendered: seq<TextLine>, n: nat)
    requires n < |rendered|
    ensures Lines(header, rendered, n + 1) == Lines(header, rendered, n) + [rendered[n]]
  {}

  lemma CutNearLimit(text: Bytes)
    requires ValidUtf8(text) && |text| > MAX_SNIPPET
    ensures MAX_SNIPPET - 3 <= BoundaryBefore(text, MAX_SNIPPET)
  {
    var q := BoundaryNearby(text, 0, MAX_SNIPPET);
    if BoundaryBefore(text, MAX_SNIPPET) < q {
      NoBoundaryBetween(text, MAX_SNIPPET, q);
    }
  }

  /** The inner loop: step back from byte 400 to a character boundary. On well-formed text that
      takes at most three steps. */
  method CutPoint(text: Bytes) returns (end: nat)
    requires ValidUtf8(text) && |text| > MAX_SNIPPET
    ensures end == BoundaryBefore(text, MAX_SNIPPET)
    ensures MAX_SNIPPET - 3 <= end <= MAX_SNIPPET && ValidUtf8(text[..end])
  {
    end := MAX_SNIPPET;
    while !IsCharBoundary(text, end)
      invariant end <= MAX_SNIPPET
      invariant BoundaryBefore(text, end) == BoundaryBefore(text, MAX_SNIPPET)
      decreases end
    {
      end := end - 1;
    }
    CutNearLimit(text);
    SplitAtBoundary(text, end);
  }

  /** None of the first `n` lines took the body past 4000 bytes. */
  ghost predicate AllFit(header: TextLine, rendered: seq<TextLine>, n: nat)
    requires n <= |rendered|
  {
    n == 0 || (|Join(Lines(header, rendered, n))| <= MAX_BODY && AllFit(header, rendered, n - 1))
  }

  /** `end` is the last character boundary within the first 400 bytes, and at most 3 bytes back. */
  ghost predicate IsCut(text: Bytes, end: nat) {
    && 397 <= end <= 400 && IsCharBoundary(text, end)
    && forall i :: end < i <= 400 ==> !IsCharBoundary(text, i)
  }

  /** What a reader sees of a text: all of it, or its first 397 to 400 bytes and an ellipsis. */
  ghost predicate ShowsText(shown: Bytes, text: Bytes) {
    if |text| <= 400 then shown == text
    else exists end: nat :: IsCut(text, end) && end <= |text| && shown == text[..end] + [0xE2, 0x80, 0xA6]
  }

  /** A line names its sender and shows its text. */
  ghost predicate ShowsSource(line: TextLine, s: Source) {
    exists shown :: line.bytes == s.sender + [0x3A, 0x20] + shown && ShowsText(shown, s.text)
  }

  lemma SnippetShowsText(text: Bytes)
    requires ValidUtf8(text)
    ensures ShowsText(Snippet(text), text)
  {
    if |text| > MAX_SNIPPET {
      var end := BoundaryBefore(text, MAX_SNIPPET);
      CutNearLimit(text);
      forall i | end < i <= 400 ensures !IsCharBoundary(text, i) {
        NoBoundaryBetween(text, MAX_SNIPPET, i);
      }
      assert IsCut(text, end);
    }
  }

  lemma LineShowsSource(s: Source)
    requires IsText(s)
    ensures ShowsSource(Line(s), s)
  {
    SnippetShowsText(s.text);
    assert Line(s).bytes == s.sender + [0x3A, 0x20] + Snippet(s.text);
  }

  /** All lines are shown, or the first `shown`: up to the one that takes the body past 4000 bytes,
      followed by the number left out. */
  ghost predicate IsMerged(header: TextLine, rendered: seq<TextLine>, lines: seq<TextLine>, shown: nat, truncated: bool) {
    && shown <= |rendered| && (truncated ==> 0 < shown) && (!truncated ==> shown == |rendered|)
    && lines == Lines(header, rendered, shown) + (if truncated then [Marker(|rendered| - shown)] else [])
    && (truncated <==> 0 < shown && |Join(Lines(header, rendered, shown))| > MAX_BODY)
    && AllFit(header, rendered, if truncated then shown - 1 else shown)
  }

  /** One source line, cut where needed. */
  method RenderLine(s: Source) returns (line: TextLine)
    requires IsText(s)
    ensures line == Line(s) && ShowsSource(line, s)
  {
    LineShowsSource(s);
    var snippet := s.text;
    if |s.text| > MAX_SNIPPET {
      var end := CutPoint(s.text);
      snippet := s.text[..end] + ELLIPSIS;
    }
    line := TextLine(s.sender + [0x3A, 0x20] + snippet);
  }

  /** The loop of `merge_forward`, for any way of rendering a source; `Line` is the one in use. */
  method MergedLines(sources: seq<Source>, render: Source -> TextLine)
    returns (lines: seq<TextLine>, shown: nat, truncated: bool)
    ensures IsMerged(Header(|sources|), Rendered(sources, render), lines, shown, truncated)
  {
    var header := Header(|sources|);
    ghost var rendered := Rendered(sources, render);
    lines, truncated := [header], false;
    var i := 0;
    while i < |sources|
      invariant 0 <= i <= |sources| && !truncated && lines == Lines(header, rendered, i)
      invariant AllFit(header, rendered, i)
    {
      LinesSnoc(header, rendered, i);
      lines := lines + [render(sources[i])];
      if |Join(lines)| > MAX_BODY {
        // `truncate(i + 2)`: there are exactly that many lines, so nothing goes.
        assert lines[..i + 2] == lines;
        lines := lines[..i + 2] + [Marker(|sources| - i - 1)];
        shown, truncated := i + 1, true;
        return;
      }
      i := i + 1;
    }
    shown := i;
  }

  // ----- The body that is sent -----

  lemma JoinSnoc(lines: seq<TextLine>, last: TextLine)
    requires lines != []
    ensures Join(lines + [last]) == Join(lines) + SEPARATOR + last.bytes
  {
    assert (lines + [last])[..|lines|] == lines;
  }

  lemma {:induction false} DigitsShort(n: nat)
    requires n < 100
    ensures |Digits(n)| <= 2
  {
    if n >= 10 { assert Digits(n / 10) == [0x30 + n / 10]; }
  }

  /** At most 50 sources: the body exceeds 4000 bytes by no more than the last source line and the
      marker with their separators, and not at all unless it was truncated. */
  lemma BodyBounded(rendered: seq<TextLine>, lines: seq<TextLine>, shown: nat, truncated: bool)
    requires |rendered| <= 50 && IsMerged(Header(|rendered|), rendered, lines, shown, truncated)
    ensures !truncated ==> |Join(lines)| <= MAX_BODY
    ensures truncated ==>
              |Join(lines)| <= MAX_BODY + 3 + |rendered[shown - 1].bytes| + 3 + |Marker(|rendered| - shown).bytes|
  {
    var header := Header(|rendered|);
    assert |header.bytes| <= 20 by { DigitsShort(|rendered|); }
    assert Join(Lines(header, rendered, 0)) == header.bytes;
    if truncated {
      LinesSnoc(header, rendered, shown - 1);
      JoinSnoc(Lines(header, rendered, shown - 1), rendered[shown - 1]);
      JoinSnoc(Lines(header, rendered, shown), Marker(|rendered| - shown));
    } else {
      assert lines == Lines(header, rendered, shown);
    }
  }

  /** A source line is its sender, two bytes and at most 403 bytes of text. */
  lemma LineBounded(s: Source)
    requires IsText(s)
    ensures |Line(s).bytes| <= |s.sender| + 2 + MAX_SNIPPET + 3
    ensures |s.text| > MAX_SNIPPET ==> |Line(s).bytes| >= |s.sender| + 2 + MAX_SNIPPET
  {
    if |s.text| > MAX_SNIPPET { CutNearLimit(s.text); }
  }

  /** The number printed in a header, and the number printed in a marker. */
  function TotalIn(line: TextLine): int
    requires |line.bytes| >= 18
  {
    Value(line.bytes[8..|line.bytes| - 10])
  }

  function RemainderIn(line: TextLine): int
    requires |line.bytes| >= 21
  {
    Value(line.bytes[15..|line.bytes| - 6])
  }

  lemma HeaderTellsTotal(n: nat)
    ensures |Header(n).bytes| >= 18 && TotalIn(Header(n)) == n
  {
    var b := Header(n).bytes;
    assert b[8..|b| - 10] == Digits(n);
    DigitsRoundTrip(n);
  }

  lemma MarkerTellsRemainder(n: nat)
    ensures |Marker(n).bytes| >= 21 && RemainderIn(Marker(n)) == n
  {
    var b := Marker(n).bytes;
    assert b[15..|b| - 6] == Digits(n);
    DigitsRoundTrip(n);
  }

  /** The text accounts for every source: the total that the first line prints is the number of
      source lines shown plus the remainder that the last line prints. */
  lemma NothingUncounted(rendered: seq<TextLine>, lines: seq<TextLine>, shown: nat, truncated: bool)
    requires IsMerged(Header(|rendered|), rendered, lines, shown, truncated)
    ensures |lines| == 1 + shown + (if truncated then 1 else 0) && |lines[0].bytes| >= 18
    ensures forall i :: 0 <= i < shown ==> lines[i + 1] == rendered[i]
    ensures !truncated ==> TotalIn(lines[0]) == shown
    ensures truncated ==> |lines[|lines| - 1].bytes| >= 21
                          && TotalIn(lines[0]) == shown + RemainderIn(lines[|lines| - 1])
                          && (RemainderIn(lines[|lines| - 1]) == 0 <==> shown == |rendered|)
  {
    HeaderTellsTotal(|rendered|);
    MarkerTellsRemainder(|rendered| - shown);
  }

  lemma {:induction false} FitsAt(header: TextLine, rendered: seq<TextLine>, n: nat, m: nat)
    requires 0 < m <= n <= |rendered| && AllFit(header, rendered, n)
    ensures |Join(Lines(header, rendered, m))| <= MAX_BODY
  {
    if m < n { FitsAt(header, rendered, n - 1, m); }
  }

  /** The body announces "0 more" if and only if every line but the last fits and the last does not. */
  lemma ZeroMoreIff(rendered: seq<TextLine>, lines: seq<TextLine>, shown: nat, truncated: bool)
    requires IsMerged(Header(|rendered|), rendered, lines, shown, truncated)
    ensures truncated && lines[|lines| - 1] == Marker(0)
            <==> && rendered != [] && AllFit(Header(|rendered|), rendered, |rendered| - 1)
                 && |Join(Lines(Header(|rendered|), rendered, |rendered|))| > MAX_BODY
  {
    NothingUncounted(rendered, lines, shown, truncated);
    MarkerTellsRemainder(0);
    if truncated && shown < |rendered| && AllFit(Header(|rendered|), rendered, |rendered| - 1) {
      FitsAt(Header(|rendered|), rendered, |rendered| - 1, shown);
    }
  }

  lemma SnippetValid(text: Bytes)
    requires ValidUtf8(text)
    ensures ValidUtf8(Snippet(text))
  {
    if |text| > MAX_SNIPPET {
      var end := BoundaryBefore(text, MAX_SNIPPET);
      SplitAtBoundary(text, end);
      assert ValidUtf8(ELLIPSIS);
      ConcatValid(text[..end], ELLIPSIS);
    }
  }

  lemma LineValid(s: Source)
    requires IsText(s)
    ensures ValidUtf8(Line(s).bytes)
  {
    SnippetValid(s.text);
    AsciiFrom([0x3A, 0x20], 0);
    ConcatValid(s.sender, [0x3A, 0x20]);
    ConcatValid(s.sender + [0x3A, 0x20], Snippet(s.text));
  }

  lemma AppendValid(lines: seq<TextLine>, last: TextLine)
    requires lines != [] && ValidUtf8(Join(lines)) && ValidUtf8(last.bytes)
    ensures ValidUtf8(Join(lines + [last]))
  {
    AsciiFrom(SEPARATOR, 0);
    ConcatValid(Join(lines), SEPARATOR);
    ConcatValid(Join(lines) + SEPARATOR, last.bytes);
    JoinSnoc(lines, last);
  }

  lemma {:induction false} JoinedLinesValid(header: TextLine, rendered: seq<TextLine>, n: nat)
    requires n <= |rendered| && ValidUtf8(header.bytes) && forall l :: l in rendered ==> ValidUtf8(l.bytes)
    ensures ValidUtf8(Join(Lines(header, rendered, n)))
  {
    if n == 0 {
      assert Lines(header, rendered, 0) == [header];
    } else {
      JoinedLinesValid(header, rendered, n - 1);
      LinesSnoc(header, rendered, n - 1);
      AppendValid(Lines(header, rendered, n - 1), rendered[n - 1]);
    }
  }

  lemma MarkerValid(n: nat)
    ensures ValidUtf8(Marker(n).bytes)
  {
    var rest := [0x28, 0x74, 0x72, 0x75, 0x6E, 0x63, 0x61, 0x74, 0x65, 0x64, 0x2C, 0x20] + Digits(n)
                + [0x20, 0x6D, 0x6F, 0x72, 0x65, 0x29];
    AsciiFrom(rest, 0);
    assert ValidUtf8(ELLIPSIS);
    ConcatValid(ELLIPSIS, rest);
    assert Marker(n).bytes == ELLIPSIS + rest;
  }

  lemma RenderedValid(sources: seq<Source>)
    requires forall s :: s in sources ==> IsText(s)
    ensures forall l :: l in Rendered(sources, Line) ==> ValidUtf8(l.bytes)
  {
    forall l | l in Rendered(sources, Line) ensures ValidUtf8(l.bytes) {
      var i :| 0 <= i < |sources| && Rendered(sources, Line)[i] == l;
      assert sources[i] in sources;
      LineValid(sources[i]);
    }
  }

  /** For any sources the body sent is well-formed text: no cut splits a character. */
  lemma BodyIsText(header: TextLine, rendered: seq<TextLine>, lines: seq<TextLine>, shown: nat, truncated: bool)
    requires IsMerged(header, rendered, lines, shown, truncated)
    requires ValidUtf8(header.bytes) && forall l :: l in rendered ==> ValidUtf8(l.bytes)
    ensures ValidUtf8(Join(lines))
  {
    JoinedLinesValid(header, rendered, shown);
    if truncated {
      MarkerValid(|rendered| - shown);
      AppendValid(Lines(header, rendered, shown), Marker(|rendered| - shown));
    } else {
      assert lines == Lines(header, rendered, shown);
    }
  }

  lemma SourcesGiveText(sources: seq<Source>, lines: seq<TextLine>, shown: nat, truncated: bool)
    requires IsMerged(Header(|sources|), Rendered(sources, Line), lines, shown, truncated)
    requires forall s :: s in sources ==> IsText(s)
    ensures ValidUtf8(Join(lines))
  {
    AsciiFrom(Header(|sources|).bytes, 0);
    RenderedValid(sources);
    BodyIsText(Header(|sources|), Rendered(sources, Line), lines, shown, truncated);
  }

  /** The room a body may take: 4000 bytes, or one more line of some source and the marker. */
  ghost predicate FitsWith(sources: seq<Source>, size: nat) {
    size <= MAX_BODY || exists s :: s in sources && size <= MAX_BODY + |s.sender| + 2 + MAX_SNIPPET + 3 + 29
  }

  lemma SourcesGiveBound(sources: seq<Source>, lines: seq<TextLine>, shown: nat, truncated: bool)
    requires IsMerged(Header(|sources|), Rendered(sources, Line), lines, shown, truncated)
    requires |sources| <= 50 && forall s :: s in sources ==> IsText(s)
    ensures FitsWith(sources, |Join(lines)|)
  {
    var rendered := Rendered(sources, Line);
    BodyBounded(rendered, lines, shown, truncated);
    if truncated {
      var s := sources[shown - 1];
      assert s in sources && rendered[shown - 1] == Line(s);
      LineBounded(s);
      assert |Marker(|sources| - shown).bytes| <= 23 by { DigitsShort(|sources| - shown); }
    }
  }

  /** The whole call, for any one to fifty sources: the body joins the lines described above, which
      show the first sources in order, is well-formed and within the bounds. */
  method MergeForward(sources: seq<Source>)
    returns (body: Bytes, ghost lines: seq<TextLine>, ghost shown: nat, ghost truncated: bool)
    requires 1 <= |sources| <= 50 && forall s :: s in sources ==> IsText(s)
    ensures IsMerged(Header(|sources|), Rendered(sources, Line), lines, shown, truncated)
    ensures body == Join(lines) && ValidUtf8(body) && FitsWith(sources, |body|)
    ensures shown <= |sources| && shown < |lines| && forall i :: 0 <= i < shown ==> ShowsSource(lines[i + 1], sources[i])
  {
    var merged, n, cut := MergedLines(sources, Line);
    lines, shown, truncated := merged, n, cut;
    SourcesGiveText(sources, lines, shown, truncated);
    SourcesGiveBound(sources, lines, shown, truncated);
    forall i | 0 <= i < shown ensures ShowsSource(lines[i + 1], sources[i]) {
      assert sources[i] in sources && lines[i + 1] == Line(sources[i]);
      LineShowsSource(sources[i]);
    }
    body := Join(merged);
  }

}
