/** What is highlighted: the spans around each character of the HTML that web/src/lib/highlight.ts makes. */
module Styles {
  import opened Wrappers
  import opened Sequences
  import opened Text
  import opened Inline
  import opened Highlight

  /** A character of the text content with the class attributes of the spans around it, outermost first. */
  datatype Glyph = Glyph(c: char, spans: seq<string>)

  const BOLD := "kp-md__b"
  const ITALIC := "kp-md__i"
  const MARK := "kp-md__mark"

  /** The class attribute of a heading of one to three hashes. */
  function HeadingClass(level: nat): string
    requires 1 <= level <= 3
  {
    if level == 1 then "kp-md__h kp-md__h1" else if level == 2 then "kp-md__h kp-md__h2" else "kp-md__h kp-md__h3"
  }

  // ----- A reader that keeps the open spans -----

  /** The tag that opens a span of this class. */
  function OpenTag(name: string): string {
    "<span class=\"" + name + "\">"
  }

  /** What the tag at the start of `html` makes of the open spans. */
  function Opened(tag: string, open: seq<string>): seq<string> {
    if tag == "</span>" then (if open == [] then [] else open[..|open| - 1])
    else if |tag| >= 15 && StartsWith(tag, "<span class=\"") then open + [tag[13..|tag| - 2]]
    else open
  }

  function Reading(html: string, open: seq<string>): seq<Glyph>
    decreases |html|
  {
    if html == "" then []
    else if html[0] == '<' then
      var rest := AfterTag(html[1..]);
      Reading(rest, Opened(html[..|html| - |rest|], open))
    else if StartsWith(html, "&amp;") then [Glyph('&', open)] + Reading(html[5..], open)
    else if StartsWith(html, "&lt;") then [Glyph('<', open)] + Reading(html[4..], open)
    else if StartsWith(html, "&gt;") then [Glyph('>', open)] + Reading(html[4..], open)
    else [Glyph(html[0], open)] + Reading(html[1..], open)
  }

  function Characters(glyphs: seq<Glyph>): string {
    if glyphs == [] then "" else [glyphs[0].c] + Characters(glyphs[1..])
  }

  /** Without the spans the reading is the text content. */
  lemma {:induction false} ReadingIsTextContent(html: string, open: seq<string>)
    ensures Characters(Reading(html, open)) == TextContent(html)
    decreases |html|
  {
    if html == "" {
    } else if html[0] == '<' {
      var rest := AfterTag(html[1..]);
      ReadingIsTextContent(rest, Opened(html[..|html| - |rest|], open));
    } else if StartsWith(html, "&amp;") {
      ReadingIsTextContent(html[5..], open);
    } else if StartsWith(html, "&lt;") || StartsWith(html, "&gt;") {
      ReadingIsTextContent(html[4..], open);
    } else {
      ReadingIsTextContent(html[1..], open);
    }
  }

  // ----- What should be highlighted -----

  function Painted(text: string, spans: seq<string>): seq<Glyph> {
    if text == "" then [] else [Glyph(text[0], spans)] + Painted(text[1..], spans)
  }

  /** Bold and italic in their spans, the stars dimmed. */
  function PaintedSegment(segment: Segment, spans: seq<string>): seq<Glyph> {
    match segment
    case Plain(text, _) => Painted(text, spans)
    case Bold(text, _) =>
      Painted("**", spans + [BOLD, MARK]) + Painted(text, spans + [BOLD]) + Painted("**", spans + [BOLD, MARK])
    case Italic(text, _) =>
      Painted("*", spans + [ITALIC, MARK]) + Painted(text, spans + [ITALIC]) + Painted("*", spans + [ITALIC, MARK])
  }

  function PaintedSegments(segments: seq<Segment>, spans: seq<string>): seq<Glyph> {
    if segments == [] then [] else PaintedSegment(segments[0], spans) + PaintedSegments(segments[1..], spans)
  }

  /** A heading in its span, the hashes dimmed. */
  function PaintedLine(line: string): seq<Glyph> {
    match ParseHeading(line)
    case None => PaintedSegments(Segments(line), [])
    case Some(heading) =>
      var span := HeadingClass(if 1 <= heading.level <= 3 then heading.level else 1);
      Painted(heading.marker, [span, MARK]) + PaintedSegments(Segments(heading.text), [span])
  }

  function PaintedLines(lines: seq<string>): seq<Glyph> {
    if lines == [] then []
    else if |lines| == 1 then PaintedLine(lines[0])
    else PaintedLine(lines[0]) + [Glyph('\n', [])] + PaintedLines(lines[1..])
  }

  // ----- The HTML paints it -----

  /** `html` is complete under these open spans: whatever follows, it contributes exactly `glyphs`. */
  ghost predicate Paints(html: string, open: seq<string>, glyphs: seq<Glyph>) {
    forall rest: string {:trigger Reading(html + rest, open)} ::
      Reading(html + rest, open) == glyphs + Reading(rest, open)
  }

  lemma PaintsNothing(open: seq<string>)
    ensures Paints("", open, [])
  {
    forall rest: string ensures Reading("" + rest, open) == [] + Reading(rest, open) {
      assert "" + rest == rest;
    }
  }

  lemma PaintsConcat(a: string, x: seq<Glyph>, b: string, y: seq<Glyph>, open: seq<string>)
    requires Paints(a, open, x) && Paints(b, open, y)
    ensures Paints(a + b, open, x + y)
  {
    hide Reading;
    forall rest: string ensures Reading(a + b + rest, open) == x + y + Reading(rest, open) {
      Associate(a, b, rest);
      Associate(x, y, Reading(rest, open));
    }
  }

  lemma ReadReference(html: string, reference: string, c: char, rest: string, open: seq<string>)
    requires (reference == "&amp;" && c == '&') || (reference == "&lt;" && c == '<') || (reference == "&gt;" && c == '>')
    requires html == reference + rest
    ensures Reading(html, open) == [Glyph(c, open)] + Reading(rest, open)
  {
    assert html[..|reference|] == reference && html[|reference|..] == rest;
    StartsAt(html, "&amp;", 1);
    StartsAt(html, "&lt;", 1);
  }

  lemma ReadPlain(c: char, rest: string, open: seq<string>)
    requires c != '<' && c != '&'
    ensures Reading([c] + rest, open) == [Glyph(c, open)] + Reading(rest, open)
  {
    var html := [c] + rest;
    assert html[0] == c && html[1..] == rest;
    StartsAt(html, "&amp;", 0);
    StartsAt(html, "&lt;", 0);
    StartsAt(html, "&gt;", 0);
  }

  lemma PaintsChar(c: char, open: seq<string>)
    ensures Paints(EscapeChar(c), open, [Glyph(c, open)])
  {
    hide Reading;
    forall rest: string ensures Reading(EscapeChar(c) + rest, open) == [Glyph(c, open)] + Reading(rest, open) {
      if c == '&' || c == '<' || c == '>' {
        ReadReference(EscapeChar(c) + rest, EscapeChar(c), c, rest, open);
      } else {
        ReadPlain(c, rest, open);
      }
    }
  }

  lemma {:induction false} PaintsText(text: string, open: seq<string>)
    ensures Paints(EscapeHtml(text), open, Painted(text, open))
  {
    hide Paints, EscapeHtml;
    if text == "" {
      EscapeNothing();
      PaintsNothing(open);
    } else {
      assert text == [text[0]] + text[1..];
      EscapeStep(text[0], text[1..]);
      PaintsChar(text[0], open);
      PaintsText(text[1..], open);
      PaintsConcat(EscapeChar(text[0]), [Glyph(text[0], open)], EscapeHtml(text[1..]), Painted(text[1..], open), open);
    }
  }

  lemma EscapeNothing()
    ensures EscapeHtml("") == ""
  {
  }

  lemma ReadTag(tag: string, rest: string, open: seq<string>)
    requires IsTag(tag)
    ensures Reading(tag + rest, open) == Reading(rest, Opened(tag, open))
  {
    var html := tag + rest;
    assert html[1..] == tag[1..] + rest;
    AfterTagSkips(tag[1..], rest);
    assert html[..|html| - |rest|] == tag;
  }

  /** A class name that does not end the tag. */
  predicate IsName(name: string) {
    '>' !in name
  }

  lemma OpenTagOpens(name: string, open: seq<string>)
    requires IsName(name)
    ensures IsTag(OpenTag(name)) && Opened(OpenTag(name), open) == open + [name]
  {
    var tag := OpenTag(name);
    var front := "<span class=\"";
    assert tag == front + name + "\">";
    assert tag[..13] == front && tag[13..|tag| - 2] == name;
    assert tag[|tag| - 1] == '>' && tag[1] == 's';
    forall i | 1 <= i < |tag| - 1 ensures tag[i] != '>' {
      assert 13 <= i < |tag| - 2 ==> tag[i] == name[i - 13];
    }
  }

  lemma CloseTagCloses(open: seq<string>, name: string)
    ensures IsTag("</span>") && Opened("</span>", open + [name]) == open
  {
    InitOfSnoc(open, name);
  }

  /** A span around complete HTML. */
  lemma PaintsSpan(name: string, html: string, glyphs: seq<Glyph>, open: seq<string>)
    requires IsName(name) && Paints(html, open + [name], glyphs)
    ensures Paints(OpenTag(name) + html + "</span>", open, glyphs)
  {
    hide Reading, OpenTag, Opened;
    var tag, inner := OpenTag(name), open + [name];
    OpenTagOpens(name, open);
    CloseTagCloses(open, name);
    forall rest: string ensures Reading(tag + html + "</span>" + rest, open) == glyphs + Reading(rest, open) {
      assert tag + html + "</span>" + rest == tag + (html + ("</span>" + rest));
      ReadTag(tag, html + ("</span>" + rest), open);
      ReadTag("</span>", rest, inner);
    }
  }

  /** The spans of the source, by class. */
  lemma SpansByClass()
    ensures BOLD_SPAN == OpenTag(BOLD) && ITALIC_SPAN == OpenTag(ITALIC) && MARK_SPAN == OpenTag(MARK)
    ensures CLOSE_SPAN == "</span>"
    ensures IsName(BOLD) && IsName(ITALIC) && IsName(MARK)
  {
  }

  lemma FirstHeading()
    ensures HeadingSpan(1) == OpenTag("kp-md__h kp-md__h1") && IsName("kp-md__h kp-md__h1")
  {
  }

  lemma SecondHeading()
    ensures HeadingSpan(2) == OpenTag("kp-md__h kp-md__h2") && IsName("kp-md__h kp-md__h2")
  {
  }

  lemma ThirdHeading()
    ensures HeadingSpan(3) == OpenTag("kp-md__h kp-md__h3") && IsName("kp-md__h kp-md__h3")
  {
  }

  lemma HeadingByClass(level: nat)
    requires 1 <= level <= 3
    ensures HeadingSpan(level) == OpenTag(HeadingClass(level)) && IsName(HeadingClass(level))
  {
    hide HeadingSpan, OpenTag, IsName;
    FirstHeading();
    SecondHeading();
    ThirdHeading();
  }

  lemma PaintsMark(marker: string, open: seq<string>)
    requires EscapeHtml(marker) == marker
    ensures Paints(Mark(marker), open, Painted(marker, open + [MARK]))
  {
    hide Paints, OpenTag, EscapeHtml, Painted;
    SpansByClass();
    PaintsText(marker, open + [MARK]);
    PaintsSpan(MARK, marker, Painted(marker, open + [MARK]), open);
  }

  lemma PaintsMarked(name: string, marker: string, text: string, open: seq<string>)
    requires IsName(name) && EscapeHtml(marker) == marker
    ensures Paints(OpenTag(name) + Mark(marker) + EscapeHtml(text) + Mark(marker) + CLOSE_SPAN, open,
                   Painted(marker, open + [name, MARK]) + Painted(text, open + [name]) + Painted(marker, open + [name, MARK]))
  {
    hide Paints, OpenTag, EscapeHtml, Painted, Mark;
    var inner := open + [name];
    assert inner + [MARK] == open + [name, MARK];
    var m, t := Painted(marker, open + [name, MARK]), Painted(text, inner);
    PaintsMark(marker, inner);
    PaintsText(text, inner);
    PaintsConcat(Mark(marker), m, EscapeHtml(text), t, inner);
    PaintsConcat(Mark(marker) + EscapeHtml(text), m + t, Mark(marker), m, inner);
    PaintsSpan(name, Mark(marker) + EscapeHtml(text) + Mark(marker), m + t + m, open);
    assert OpenTag(name) + (Mark(marker) + EscapeHtml(text) + Mark(marker)) + "</span>" ==
           OpenTag(name) + Mark(marker) + EscapeHtml(text) + Mark(marker) + CLOSE_SPAN;
  }

  lemma PaintsSegment(segment: Segment, open: seq<string>)
    ensures Paints(SegmentHtml(segment), open, PaintedSegment(segment, open))
  {
    hide Paints, OpenTag, EscapeHtml, Painted, Mark;
    SpansByClass();
    EscapeStars();
    match segment
    case Plain(text, _) => PaintsText(text, open);
    case Bold(text, _) => PaintsMarked(BOLD, "**", text, open);
    case Italic(text, _) => PaintsMarked(ITALIC, "*", text, open);
  }

  lemma {:induction false} PaintsSegments(segments: seq<Segment>, open: seq<string>)
    ensures Paints(SegmentsHtml(segments), open, PaintedSegments(segments, open))
  {
    hide Paints, SegmentHtml, PaintedSegment;
    if segments == [] {
      PaintsNothing(open);
    } else {
      PaintsSegment(segments[0], open);
      PaintsSegments(segments[1..], open);
      PaintsConcat(SegmentHtml(segments[0]), PaintedSegment(segments[0], open),
                   SegmentsHtml(segments[1..]), PaintedSegments(segments[1..], open), open);
    }
  }

  lemma PaintsHeading(level: nat, marker: string, text: string)
    requires 1 <= level <= 3
    ensures var span := HeadingClass(level);
      Paints(HeadingSpan(level) + MARK_SPAN + EscapeHtml(marker) + CLOSE_SPAN + InlineHtml(text) + CLOSE_SPAN, [],
             Painted(marker, [span, MARK]) + PaintedSegments(Segments(text), [span]))
  {
    hide Paints, OpenTag, EscapeHtml, Painted, PaintedSegments, HeadingClass, HeadingSpan, SegmentsHtml, Segments, IsName;
    SpansByClass();
    HeadingByClass(level);
    var span := HeadingClass(level);
    var m, t := EscapeHtml(marker), InlineHtml(text);
    var x, y := Painted(marker, [span, MARK]), PaintedSegments(Segments(text), [span]);
    assert [] + [span] == [span] && [span] + [MARK] == [span, MARK];
    PaintsText(marker, [span, MARK]);
    PaintsSpan(MARK, m, x, [span]);
    PaintsSegments(Segments(text), [span]);
    PaintsConcat(OpenTag(MARK) + m + "</span>", x, t, y, [span]);
    PaintsSpan(span, OpenTag(MARK) + m + "</span>" + t, x + y, []);
    assert OpenTag(span) + (OpenTag(MARK) + m + "</span>" + t) + "</span>" ==
           HeadingSpan(level) + MARK_SPAN + m + CLOSE_SPAN + t + CLOSE_SPAN;
  }

  lemma PaintsLine(line: string)
    ensures Paints(LineHtml(line), [], PaintedLine(line))
  {
    hide Paints, EscapeHtml, Painted, PaintedSegments, HeadingClass, HeadingSpan, SegmentsHtml, Segments;
    HeadingRebuilds(line);
    match ParseHeading(line)
    case None => PaintsSegments(Segments(line), []);
    case Some(heading) => PaintsHeading(heading.level, heading.marker, heading.text);
  }

  lemma {:induction false} PaintsLines(lines: seq<string>)
    requires lines != []
    ensures Paints(Join(LinesHtml(lines)), [], PaintedLines(lines))
  {
    hide Paints, LineHtml, PaintedLine;
    var htmls := LinesHtml(lines);
    PaintsLine(lines[0]);
    assert htmls[0] == LineHtml(lines[0]) && htmls[1..] == LinesHtml(lines[1..]);
    if |lines| > 1 {
      var x, y := PaintedLine(lines[0]), PaintedLines(lines[1..]);
      PaintsChar('\n', []);
      PaintsLines(lines[1..]);
      PaintsConcat(htmls[0], x, "\n", [Glyph('\n', [])], []);
      PaintsConcat(htmls[0] + "\n", x + [Glyph('\n', [])], Join(htmls[1..]), y, []);
    }
  }

  lemma PaintsBreak()
    ensures Paints(LINE_BREAK, [], [])
  {
    AllTags();
    var tag := LINE_BREAK;
    assert tag == "<br>" && Opened(tag, []) == [];
    forall rest: string ensures Reading(tag + rest, []) == [] + Reading(rest, []) {
      ReadTag(tag, rest, []);
    }
  }

  /** Every character of the highlighted note stands in exactly the spans it should. */
  lemma HighlightPaints(md: string)
    ensures Reading(HighlightMarkdown(md), []) == PaintedLines(Split(md))
  {
    var html, glyphs := Join(LinesHtml(Split(md))), PaintedLines(Split(md));
    PaintsLines(Split(md));
    PaintsBreak();
    PaintsConcat(html, glyphs, LINE_BREAK, [], []);
    hide PaintedLines, LinesHtml, Split;
    assert glyphs + [] == glyphs;
    assert Paints(HighlightMarkdown(md), [], glyphs);
    WholeReading(HighlightMarkdown(md), glyphs);
  }

  lemma WholeReading(html: string, glyphs: seq<Glyph>)
    requires Paints(html, [], glyphs)
    ensures Reading(html, []) == glyphs
  {
    assert html + "" == html && Reading("", []) == [] && glyphs + [] == glyphs;
  }

  // ----- What stands in a span -----

  /** The characters inside a span of this class, in order. */
  function Inside(glyphs: seq<Glyph>, name: string): string {
    if glyphs == [] then "" else (if name in glyphs[0].spans then [glyphs[0].c] else "") + Inside(glyphs[1..], name)
  }

  lemma {:induction false} InsideConcat(a: seq<Glyph>, b: seq<Glyph>, name: string)
    ensures Inside(a + b, name) == Inside(a, name) + Inside(b, name)
  {
    if a == [] {
      assert a + b == b;
    } else {
      TailOfConcat(a, b);
      InsideConcat(a[1..], b, name);
      Associate(if name in a[0].spans then [a[0].c] else "", Inside(a[1..], name), Inside(b, name));
    }
  }

  lemma {:induction false} InsidePainted(text: string, spans: seq<string>, name: string)
    ensures Inside(Painted(text, spans), name) == if name in spans then text else ""
  {
    if text != "" {
      InsidePainted(text[1..], spans, name);
      assert [text[0]] + text[1..] == text;
    }
  }

  /** What of a segment stands in a span of this class: bold and italic whole, of either the stars dimmed. */
  function Share(segment: Segment, name: string): string {
    match segment
    case Plain(_, _) => ""
    case Bold(_, raw) => if name == BOLD then raw else if name == MARK then "****" else ""
    case Italic(_, raw) => if name == ITALIC then raw else if name == MARK then "**" else ""
  }

  function Shares(segments: seq<Segment>, name: string): string {
    if segments == [] then "" else Share(segments[0], name) + Shares(segments[1..], name)
  }

  lemma InsideThree(marker: string, text: string, outer: seq<string>, inner: seq<string>, name: string)
    ensures Inside(Painted(marker, outer) + Painted(text, inner) + Painted(marker, outer), name) ==
            (if name in outer then marker else "") + (if name in inner then text else "") + (if name in outer then marker else "")
  {
    InsidePainted(marker, outer, name);
    InsidePainted(text, inner, name);
    InsideConcat(Painted(marker, outer), Painted(text, inner), name);
    InsideConcat(Painted(marker, outer) + Painted(text, inner), Painted(marker, outer), name);
  }

  lemma InsideSegment(segment: Segment, spans: seq<string>, name: string)
    requires Proper(segment) && name !in spans
    ensures Inside(PaintedSegment(segment, spans), name) == Share(segment, name)
  {
    hide Painted, Inside;
    match segment
    case Plain(text, _) => InsidePainted(text, spans, name);
    case Bold(text, raw) =>
      InsideThree("**", text, spans + [BOLD, MARK], spans + [BOLD], name);
      assert "**" + "" + "**" == "****";
    case Italic(text, raw) =>
      InsideThree("*", text, spans + [ITALIC, MARK], spans + [ITALIC], name);
      assert "*" + "" + "*" == "**";
  }

  lemma {:induction false} InsideSegments(segments: seq<Segment>, spans: seq<string>, name: string)
    requires AllProper(segments) && name !in spans
    ensures Inside(PaintedSegments(segments, spans), name) == Shares(segments, name)
  {
    hide PaintedSegment, Proper;
    if segments != [] {
      assert segments[0] in segments && forall s :: s in segments[1..] ==> s in segments;
      InsideSegment(segments[0], spans, name);
      InsideSegments(segments[1..], spans, name);
      InsideConcat(PaintedSegment(segments[0], spans), PaintedSegments(segments[1..], spans), name);
    }
  }

  lemma {:induction false} AllInside(segments: seq<Segment>, spans: seq<string>, name: string)
    requires AllProper(segments) && name in spans
    ensures Inside(PaintedSegments(segments, spans), name) == Raws(segments)
  {
    hide Proper, Painted;
    if segments != [] {
      var segment := segments[0];
      assert segment in segments && forall s :: s in segments[1..] ==> s in segments;
      AllInside(segments[1..], spans, name);
      SegmentInside(segment, spans, name);
      InsideConcat(PaintedSegment(segment, spans), PaintedSegments(segments[1..], spans), name);
    }
  }

  lemma SegmentInside(segment: Segment, spans: seq<string>, name: string)
    requires Proper(segment) && name in spans
    ensures Inside(PaintedSegment(segment, spans), name) == segment.raw
  {
    hide Painted, Inside;
    match segment
    case Plain(text, _) => InsidePainted(text, spans, name);
    case Bold(text, raw) => InsideThree("**", text, spans + [BOLD, MARK], spans + [BOLD], name);
    case Italic(text, raw) => InsideThree("*", text, spans + [ITALIC, MARK], spans + [ITALIC], name);
  }

  /** What of a line stands in a span of this class. */
  function LineShare(line: string, name: string): string {
    match ParseHeading(line)
    case None => Shares(Segments(line), name)
    case Some(heading) =>
      if 1 <= heading.level <= 3 && name == HeadingClass(heading.level) then line
      else (if name == MARK then heading.marker else "") + Shares(Segments(heading.text), name)
  }

  function LineShares(lines: seq<string>, name: string): string {
    if lines == [] then "" else LineShare(lines[0], name) + LineShares(lines[1..], name)
  }

  lemma HeadingNames(level: nat)
    requires 1 <= level <= 3
    ensures HeadingClass(level) != BOLD && HeadingClass(level) != ITALIC && HeadingClass(level) != MARK
  {
    assert |HeadingClass(level)| == 18;
  }

  lemma InsideLine(line: string, name: string)
    ensures Inside(PaintedLine(line), name) == LineShare(line, name)
  {
    hide Inside, Painted, PaintedSegments, Segments, AllProper, Shares, HeadingClass, ParseHeading;
    HeadingRebuilds(line);
    match ParseHeading(line)
    case None =>
      SegmentsProper(line);
      InsideSegments(Segments(line), [], name);
    case Some(heading) =>
      var span := HeadingClass(heading.level);
      HeadingNames(heading.level);
      SegmentsProper(heading.text);
      Lossless(heading.text);
      InsidePainted(heading.marker, [span, MARK], name);
      InsideConcat(Painted(heading.marker, [span, MARK]), PaintedSegments(Segments(heading.text), [span]), name);
      if name == span {
        AllInside(Segments(heading.text), [span], name);
      } else {
        InsideSegments(Segments(heading.text), [span], name);
      }
  }

  lemma {:induction false} InsideLines(lines: seq<string>, name: string)
    ensures Inside(PaintedLines(lines), name) == LineShares(lines, name)
  {
    hide PaintedLine, LineShare;
    if lines != [] {
      InsideLine(lines[0], name);
      if |lines| == 1 {
        assert lines[1..] == [] && LineShare(lines[0], name) + "" == LineShare(lines[0], name);
      } else {
        var x, y := PaintedLine(lines[0]), PaintedLines(lines[1..]);
        InsideLines(lines[1..], name);
        InsideConcat(x, [Glyph('\n', [])], name);
        InsideConcat(x + [Glyph('\n', [])], y, name);
        InsideBreak(name);
      }
    }
  }

  lemma InsideBreak(name: string)
    ensures Inside([Glyph('\n', [])], name) == ""
  {
    assert [Glyph('\n', [])][1..] == [];
  }

  /**
   * For every text: bold spans hold, in order, the raw slices of the bold segments of its lines, italic spans
   * those of the italic segments, heading spans the heading lines of their level, and the dimmed spans the
   * markers of all three.
   */
  lemma SpansHoldTheirSlices(md: string, name: string)
    ensures Inside(Reading(HighlightMarkdown(md), []), name) == LineShares(Split(md), name)
  {
    hide Reading, HighlightMarkdown, PaintedLines, Inside, LineShares;
    HighlightPaints(md);
    InsideLines(Split(md), name);
  }
}
