/** Highlighted HTML for the editing surface and its text content: web/src/lib/highlight.ts. */
module Highlight {
  import opened Wrappers
  import opened Text
  import opened Inline

  // ----- Escaping -----

  /** `text.replace(/c/g, with)` for a single character. */
  function ReplaceChar(s: string, c: char, with: string): string {
    if s == "" then "" else (if s[0] == c then with else [s[0]]) + ReplaceChar(s[1..], c, with)
  }

  function EscapeHtml(text: string): string {
    ReplaceChar(ReplaceChar(ReplaceChar(text, '&', "&amp;"), '<', "&lt;"), '>', "&gt;")
  }

  function EscapeChar(c: char): string {
    if c == '&' then "&amp;" else if c == '<' then "&lt;" else if c == '>' then "&gt;" else [c]
  }

  lemma {:induction false} ReplaceCharConcat(a: string, b: string, c: char, with: string)
    ensures ReplaceChar(a + b, c, with) == ReplaceChar(a, c, with) + ReplaceChar(b, c, with)
  {
    if a == "" {
      assert a + b == b;
    } else {
      var first := if a[0] == c then with else [a[0]];
      assert (a + b)[0] == a[0] && (a + b)[1..] == a[1..] + b;
      assert ReplaceChar(a + b, c, with) == first + ReplaceChar(a[1..] + b, c, with);
      ReplaceCharConcat(a[1..], b, c, with);
    }
  }

  lemma {:induction false} ReplaceCharAbsent(s: string, c: char, with: string)
    requires c !in s
    ensures ReplaceChar(s, c, with) == s
  {
    if s != "" {
      ReplaceCharAbsent(s[1..], c, with);
    }
  }

  lemma ReplaceOne(x: char, c: char, with: string)
    ensures ReplaceChar([x], c, with) == if x == c then with else [x]
  {
    assert [x][1..] == "" && with + "" == with && [x] + "" == [x];
  }

  lemma EscapeOneChar(c: char)
    ensures ReplaceChar(ReplaceChar(ReplaceChar([c], '&', "&amp;"), '<', "&lt;"), '>', "&gt;") == EscapeChar(c)
  {
    hide ReplaceChar;
    ReplaceOne(c, '&', "&amp;");
    ReplaceOne(c, '<', "&lt;");
    ReplaceOne(c, '>', "&gt;");
    ReplaceCharAbsent("&amp;", '<', "&lt;");
    ReplaceCharAbsent("&amp;", '>', "&gt;");
    ReplaceCharAbsent("&lt;", '>', "&gt;");
  }

  /** The three passes, one after the other, equal one simultaneous pass. */
  lemma {:induction false} EscapeStep(c: char, rest: string)
    ensures EscapeHtml([c] + rest) == EscapeChar(c) + EscapeHtml(rest)
  {
    var a, b := ReplaceChar([c], '&', "&amp;"), ReplaceChar(rest, '&', "&amp;");
    ReplaceCharConcat([c], rest, '&', "&amp;");
    ReplaceCharConcat(a, b, '<', "&lt;");
    ReplaceCharConcat(ReplaceChar(a, '<', "&lt;"), ReplaceChar(b, '<', "&lt;"), '>', "&gt;");
    EscapeOneChar(c);
  }

  // ----- Decoding -----

  /** What follows the end of the tag that is open at the start of `html`. */
  function AfterTag(html: string): (rest: string)
    ensures |rest| <= |html|
  {
    if html == "" then "" else if html[0] == '>' then html[1..] else AfterTag(html[1..])
  }

  predicate StartsWith(s: string, prefix: string) {
    |prefix| <= |s| && s[..|prefix|] == prefix
  }

  /** `textContent` of the parsed HTML: tags dropped, the three character references decoded. */
  function TextContent(html: string): string
    decreases |html|
  {
    if html == "" then ""
    else if html[0] == '<' then TextContent(AfterTag(html[1..]))
    else if StartsWith(html, "&amp;") then "&" + TextContent(html[5..])
    else if StartsWith(html, "&lt;") then "<" + TextContent(html[4..])
    else if StartsWith(html, "&gt;") then ">" + TextContent(html[4..])
    else [html[0]] + TextContent(html[1..])
  }

  lemma StartsAt(s: string, prefix: string, i: nat)
    requires i < |prefix|
    ensures StartsWith(s, prefix) ==> |prefix| <= |s| && s[i] == prefix[i]
  {
  }

  lemma DecodeReference(html: string, reference: string, c: char, rest: string)
    requires (reference == "&amp;" && c == '&') || (reference == "&lt;" && c == '<') || (reference == "&gt;" && c == '>')
    requires html == reference + rest
    ensures TextContent(html) == [c] + TextContent(rest)
  {
    assert html[..|reference|] == reference && html[|reference|..] == rest;
    StartsAt(html, "&amp;", 1);
    StartsAt(html, "&lt;", 1);
  }

  lemma DecodePlain(c: char, rest: string)
    requires c != '<' && c != '&'
    ensures TextContent([c] + rest) == [c] + TextContent(rest)
  {
    var html := [c] + rest;
    assert html[0] == c && html[1..] == rest;
    StartsAt(html, "&amp;", 0);
    StartsAt(html, "&lt;", 0);
    StartsAt(html, "&gt;", 0);
  }

  lemma DecodeChar(c: char, rest: string)
    ensures TextContent(EscapeChar(c) + rest) == [c] + TextContent(rest)
  {
    hide TextContent;
    if c == '&' || c == '<' || c == '>' {
      DecodeReference(EscapeChar(c) + rest, EscapeChar(c), c, rest);
    } else {
      DecodePlain(c, rest);
    }
  }

  /** `html` is complete: whatever follows, it contributes exactly `text`. */
  ghost predicate Reads(html: string, text: string) {
    forall rest: string {:trigger TextContent(html + rest)} :: TextContent(html + rest) == text + TextContent(rest)
  }

  lemma ReadsConcat(a: string, x: string, b: string, y: string)
    requires Reads(a, x) && Reads(b, y)
    ensures Reads(a + b, x + y)
  {
    forall rest: string ensures TextContent(a + b + rest) == x + y + TextContent(rest) {
      assert a + b + rest == a + (b + rest);
      assert x + y + TextContent(rest) == x + (y + TextContent(rest));
    }
  }

  lemma ReadsNothing()
    ensures Reads("", "")
  {
    forall rest: string ensures TextContent("" + rest) == "" + TextContent(rest) {
      assert "" + rest == rest;
    }
  }

  lemma ReadsChar(c: char)
    ensures Reads(EscapeChar(c), [c])
  {
    forall rest: string ensures TextContent(EscapeChar(c) + rest) == [c] + TextContent(rest) {
      DecodeChar(c, rest);
    }
  }

  lemma {:induction false} ReadsEscaped(text: string)
    ensures Reads(EscapeHtml(text), text)
  {
    if text == "" {
      ReadsNothing();
    } else {
      assert text == [text[0]] + text[1..];
      EscapeStep(text[0], text[1..]);
      ReadsChar(text[0]);
      ReadsEscaped(text[1..]);
      ReadsConcat(EscapeChar(text[0]), [text[0]], EscapeHtml(text[1..]), text[1..]);
    }
  }

  /** A complete tag: one `<` at the start, one `>` at the end. */
  predicate IsTag(tag: string) {
    && |tag| >= 2 && tag[0] == '<' && tag[|tag| - 1] == '>'
    && forall i :: 1 <= i < |tag| - 1 ==> tag[i] != '>'
  }

  lemma {:induction false} AfterTagSkips(tail: string, rest: string)
    requires tail != "" && tail[|tail| - 1] == '>' && forall i :: 0 <= i < |tail| - 1 ==> tail[i] != '>'
    ensures AfterTag(tail + rest) == rest
  {
    assert (tail + rest)[1..] == tail[1..] + rest;
    if |tail| > 1 {
      AfterTagSkips(tail[1..], rest);
    }
  }

  lemma ReadsTag(tag: string)
    requires IsTag(tag)
    ensures Reads(tag, "")
  {
    forall rest: string ensures TextContent(tag + rest) == "" + TextContent(rest) {
      assert (tag + rest)[1..] == tag[1..] + rest;
      AfterTagSkips(tag[1..], rest);
    }
  }

  // ----- Highlighting -----

  const BOLD_SPAN := "<span class=\"kp-md__b\">"
  const ITALIC_SPAN := "<span class=\"kp-md__i\">"
  const MARK_SPAN := "<span class=\"kp-md__mark\">"
  const CLOSE_SPAN := "</span>"
  const LINE_BREAK := "<br>"

  function HeadingSpan(level: nat): string {
    if level == 1 then "<span class=\"kp-md__h kp-md__h1\">"
    else if level == 2 then "<span class=\"kp-md__h kp-md__h2\">"
    else "<span class=\"kp-md__h kp-md__h3\">"
  }

  function Mark(marker: string): string {
    MARK_SPAN + marker + CLOSE_SPAN
  }

  function SegmentHtml(segment: Segment): string {
    match segment
    case Bold(text, _) => BOLD_SPAN + Mark("**") + EscapeHtml(text) + Mark("**") + CLOSE_SPAN
    case Italic(text, _) => ITALIC_SPAN + Mark("*") + EscapeHtml(text) + Mark("*") + CLOSE_SPAN
    case Plain(text, _) => EscapeHtml(text)
  }

  function SegmentsHtml(segments: seq<Segment>): string {
    if segments == [] then "" else SegmentHtml(segments[0]) + SegmentsHtml(segments[1..])
  }

  function InlineHtml(line: string): string {
    SegmentsHtml(Segments(line))
  }

  function LineHtml(line: string): string {
    match ParseHeading(line)
    case None => InlineHtml(line)
    case Some(heading) =>
      HeadingSpan(heading.level) + MARK_SPAN + EscapeHtml(heading.marker) + CLOSE_SPAN
      + InlineHtml(heading.text) + CLOSE_SPAN
  }

  function LinesHtml(lines: seq<string>): seq<string> {
    if lines == [] then [] else [LineHtml(lines[0])] + LinesHtml(lines[1..])
  }

  function HighlightMarkdown(md: string): string {
    var html := Join(LinesHtml(Split(md)));
    if md != "" && md[|md| - 1] == '\n' then html + LINE_BREAK else html
  }

  lemma AllTags()
    ensures IsTag(BOLD_SPAN) && IsTag(ITALIC_SPAN) && IsTag(MARK_SPAN) && IsTag(CLOSE_SPAN) && IsTag(LINE_BREAK)
    ensures IsTag(HeadingSpan(1)) && IsTag(HeadingSpan(2)) && IsTag(HeadingSpan(3))
  {
  }

  lemma EscapeStars()
    ensures EscapeHtml("*") == "*" && EscapeHtml("**") == "**"
  {
    assert forall c: char, with: string :: c != '*' ==> ReplaceChar("*", c, with) == "*" by {
      forall c: char, with: string | c != '*' {
        ReplaceCharAbsent("*", c, with);
      }
    }
    assert forall c: char, with: string :: c != '*' ==> ReplaceChar("**", c, with) == "**" by {
      forall c: char, with: string | c != '*' {
        ReplaceCharAbsent("**", c, with);
      }
    }
  }

  lemma ReadsBetween(open: string, html: string, text: string, close: string)
    requires IsTag(open) && Reads(html, text) && IsTag(close)
    ensures Reads(open + html + close, text)
  {
    ReadsTag(open);
    ReadsTag(close);
    ReadsConcat(open, "", html, text);
    ReadsConcat(open + html, "" + text, close, "");
    assert "" + text + "" == text;
  }

  lemma ReadsMark(marker: string)
    requires EscapeHtml(marker) == marker
    ensures Reads(Mark(marker), marker)
  {
    AllTags();
    ReadsEscaped(marker);
    ReadsBetween(MARK_SPAN, marker, marker, CLOSE_SPAN);
  }

  /** A span with its dimmed markers reads as marker, text, marker. */
  lemma ReadsMarked(span: string, marker: string, text: string)
    requires IsTag(span) && EscapeHtml(marker) == marker
    ensures Reads(span + Mark(marker) + EscapeHtml(text) + Mark(marker) + CLOSE_SPAN, marker + text + marker)
  {
    hide Reads, IsTag;
    AllTags();
    ReadsMark(marker);
    ReadsEscaped(text);
    var inner := Mark(marker) + EscapeHtml(text) + Mark(marker);
    ReadsConcat(Mark(marker), marker, EscapeHtml(text), text);
    ReadsConcat(Mark(marker) + EscapeHtml(text), marker + text, Mark(marker), marker);
    ReadsBetween(span, inner, marker + text + marker, CLOSE_SPAN);
    assert span + Mark(marker) + EscapeHtml(text) + Mark(marker) + CLOSE_SPAN == span + inner + CLOSE_SPAN;
  }

  lemma ReadsSegment(segment: Segment)
    requires Proper(segment)
    ensures Reads(SegmentHtml(segment), segment.raw)
  {
    AllTags();
    EscapeStars();
    match segment
    case Bold(text, _) => ReadsMarked(BOLD_SPAN, "**", text);
    case Italic(text, _) => ReadsMarked(ITALIC_SPAN, "*", text);
    case Plain(text, _) => ReadsEscaped(text);
  }

  lemma {:induction false} ReadsSegments(segments: seq<Segment>)
    requires AllProper(segments)
    ensures Reads(SegmentsHtml(segments), Raws(segments))
  {
    if segments == [] {
      ReadsNothing();
    } else {
      assert segments[0] in segments && forall s :: s in segments[1..] ==> s in segments;
      ReadsSegment(segments[0]);
      ReadsSegments(segments[1..]);
      ReadsConcat(SegmentHtml(segments[0]), segments[0].raw, SegmentsHtml(segments[1..]), Raws(segments[1..]));
    }
  }

  lemma ReadsInline(line: string)
    ensures Reads(InlineHtml(line), line)
  {
    SegmentsProper(line);
    Lossless(line);
    ReadsSegments(Segments(line));
  }

  lemma ReadsHeading(span: string, heading: Heading)
    requires IsTag(span)
    ensures Reads(span + MARK_SPAN + EscapeHtml(heading.marker) + CLOSE_SPAN + InlineHtml(heading.text) + CLOSE_SPAN,
                  heading.marker + heading.text)
  {
    hide Reads, IsTag, EscapeHtml, InlineHtml;
    AllTags();
    ReadsEscaped(heading.marker);
    ReadsInline(heading.text);
    var marker, text := EscapeHtml(heading.marker), InlineHtml(heading.text);
    var mark := MARK_SPAN + marker + CLOSE_SPAN;
    ReadsBetween(MARK_SPAN, marker, heading.marker, CLOSE_SPAN);
    ReadsConcat(mark, heading.marker, text, heading.text);
    ReadsBetween(span, mark + text, heading.marker + heading.text, CLOSE_SPAN);
    assert span + MARK_SPAN + marker + CLOSE_SPAN + text + CLOSE_SPAN == span + (mark + text) + CLOSE_SPAN;
  }

  lemma ReadsLine(line: string)
    ensures Reads(LineHtml(line), line)
  {
    match ParseHeading(line)
    case None => ReadsInline(line);
    case Some(heading) =>
      AllTags();
      HeadingRebuilds(line);
      ReadsHeading(HeadingSpan(heading.level), heading);
  }

  lemma {:induction false} ReadsLines(lines: seq<string>)
    requires lines != []
    ensures Reads(Join(LinesHtml(lines)), Join(lines))
  {
    var htmls := LinesHtml(lines);
    ReadsLine(lines[0]);
    assert htmls[0] == LineHtml(lines[0]) && htmls[1..] == LinesHtml(lines[1..]);
    if |lines| > 1 {
      ReadsChar('\n');
      ReadsLines(lines[1..]);
      ReadsConcat(htmls[0], lines[0], "\n", "\n");
      ReadsConcat(htmls[0] + "\n", lines[0] + "\n", Join(htmls[1..]), Join(lines[1..]));
    }
  }

  /** The text content of the highlighted note is the note, for every text. */
  lemma HighlightIsLossless(md: string)
    ensures TextContent(HighlightMarkdown(md)) == md
  {
    var html := Join(LinesHtml(Split(md)));
    JoinSplit(md);
    AllTags();
    ReadsLines(Split(md));
    ReadsTag(LINE_BREAK);
    ReadsConcat(html, md, LINE_BREAK, "");
    assert Reads(HighlightMarkdown(md), md) by {
      assert md + "" == md;
    }
    assert HighlightMarkdown(md) + "" == HighlightMarkdown(md) && md + TextContent("") == md;
  }
}
