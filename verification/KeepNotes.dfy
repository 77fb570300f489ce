/** Imported notes against the editor: when the bodies are the same, and when they reopen unchanged. */
module KeepNotes {
  import opened Wrappers
  import opened Sequences
  import opened Text
  import opened Markdown
  import RoundTrip
  import opened CanonicalBodies
  import opened KeepBody

  // ----- Notes -----

  /** The lines that decide the paragraphs of a note. */
  function TextLines(raw: KeepNote): seq<string> {
    if raw.textContent.Some? then Split(ReplaceCr(ReplaceCrLf(raw.textContent.value))) else []
  }

  function ParagraphBlocks(raw: KeepNote): seq<Block> {
    Paragraphs(TextLines(raw), [])
  }

  function Boxes(raw: KeepNote): seq<Block> {
    if raw.listContent.Some? then ItemBlocks(raw.listContent.value) else []
  }

  lemma NoteShape(raw: KeepNote)
    ensures NoteBlocks(raw) == ParagraphBlocks(raw) + Boxes(raw)
  {
  }

  lemma ParagraphIsFilled(paragraph: seq<string>)
    requires Unbroken(paragraph)
    requires forall line :: line in paragraph ==> !PyBlank(line)
    ensures forall block :: block in ParagraphOf(paragraph) ==>
              block.Text? && Filled(block) && Split(block.text) == paragraph
  {
    if paragraph != [] {
      SplitJoin(paragraph);
    }
  }

  lemma {:induction false} ParagraphsAreFilled(lines: seq<string>, paragraph: seq<string>)
    requires Unbroken(lines) && Unbroken(paragraph)
    requires forall line :: line in paragraph ==> !PyBlank(line)
    ensures forall block :: block in Paragraphs(lines, paragraph) ==> block.Text? && Filled(block)
    ensures forall block, line :: block in Paragraphs(lines, paragraph) && line in Split(block.text) ==>
              (line in lines || line in paragraph) && !PyBlank(line)
  {
    hide Filled, Split, ParagraphOf, PyBlank, NoNewline;
    if lines == [] {
      ParagraphIsFilled(paragraph);
    } else {
      assert lines[0] in lines && forall l :: l in lines[1..] ==> l in lines;
      if PyBlank(lines[0]) {
        ParagraphIsFilled(paragraph);
        ParagraphsAreFilled(lines[1..], []);
      } else {
        ParagraphsAreFilled(lines[1..], paragraph + [lines[0]]);
      }
    }
  }

  lemma {:induction false} ItemsAreBoxes(items: seq<KeepItem>)
    ensures forall block :: block in ItemBlocks(items) ==> block.Check?
  {
    if items != [] {
      ItemsAreBoxes(items[1..]);
    }
  }

  lemma NoteParts(raw: KeepNote)
    ensures NoteBlocks(raw) == ParagraphBlocks(raw) + Boxes(raw)
    ensures forall block :: block in ParagraphBlocks(raw) ==> block.Text? && Filled(block)
    ensures forall block, line :: block in ParagraphBlocks(raw) && line in Split(block.text) ==>
              line in TextLines(raw) && !PyBlank(line)
    ensures forall block :: block in Boxes(raw) ==> block.Check?
  {
    NoteShape(raw);
    ParagraphsAreFilled(TextLines(raw), []);
    if raw.listContent.Some? {
      ItemsAreBoxes(raw.listContent.value);
    }
  }

  // ----- Line feeds in a row -----

  lemma TripleCut(a: string, b: string)
    requires b != "" && b[0] != '\n'
    ensures HasTriple(a + b) <==> HasTriple(a) || HasTriple(b)
  {
    var s := a + b;
    assert s[|a|] == b[0];
    if i :| 0 <= i <= |s| - 3 && TripleAt(s, i) {
      if i >= |a| {
        assert TripleAt(b, i - |a|);
      } else {
        assert TripleAt(a, i);
      }
    }
    if i :| 0 <= i <= |a| - 3 && TripleAt(a, i) {
      assert TripleAt(s, i);
    }
    if i :| 0 <= i <= |b| - 3 && TripleAt(b, i) {
      assert TripleAt(s, |a| + i);
    }
  }

  lemma TripleAfter(a: string, b: string)
    requires NoNewline(a)
    ensures HasTriple(a + b) <==> HasTriple(b)
  {
    var s := a + b;
    assert forall k :: 0 <= k < |a| ==> s[k] == a[k];
    if i :| 0 <= i <= |s| - 3 && TripleAt(s, i) {
      assert TripleAt(b, i - |a|);
    }
    if i :| 0 <= i <= |b| - 3 && TripleAt(b, i) {
      assert TripleAt(s, |a| + i);
    }
  }

  predicate EndsWith(s: string, end: string) {
    |end| <= |s| && s[|s| - |end|..] == end
  }

  lemma TripleThenBreak(s: string)
    ensures HasTriple(s + "\n") <==> HasTriple(s) || EndsWith(s, "\n\n")
  {
    var t, n := s + "\n", |s|;
    if i :| 0 <= i <= |t| - 3 && TripleAt(t, i) {
      if i + 3 <= n {
        assert TripleAt(s, i);
      } else {
        assert s[n - 2..] == [t[i], t[i + 1]];
      }
    }
    if i :| 0 <= i <= n - 3 && TripleAt(s, i) {
      assert TripleAt(t, i);
    }
    if EndsWith(s, "\n\n") {
      assert s[n - 2..][0] == s[n - 2] && s[n - 2..][1] == s[n - 1];
      assert TripleAt(t, n - 2);
    }
  }

  /** Nothing for the importer to collapse or strip. */
  predicate Settled(s: string) {
    !HasTriple(s) && (s != "" ==> s[0] != '\n' && s[|s| - 1] != '\n')
  }

  lemma {:induction false} StripSpec(s: string)
    ensures |StripNewlines(s)| <= |s| && (StripNewlines(s) == s || |StripNewlines(s)| < |s|)
    ensures var r := StripNewlines(s); r != "" ==> r[0] != '\n' && r[|r| - 1] != '\n'
    ensures !HasTriple(s) ==> !HasTriple(StripNewlines(s))
  {
    if s != "" && s[0] == '\n' {
      StripSpec(s[1..]);
      if i :| 0 <= i <= |s[1..]| - 3 && TripleAt(s[1..], i) {
        assert TripleAt(s, i + 1);
      }
    } else if s != "" && s[|s| - 1] == '\n' {
      var init := s[..|s| - 1];
      StripSpec(init);
      if i :| 0 <= i <= |init| - 3 && TripleAt(init, i) {
        assert TripleAt(s, i);
      }
    }
  }

  lemma {:induction false} CollapsedSpec(s: string)
    ensures !HasTriple(Collapsed(s)) && |Collapsed(s)| <= |s| && (HasTriple(s) ==> |Collapsed(s)| < |s|)
    decreases |s|
  {
    if HasTriple(s) {
      ReplaceTriplesShrinks(s);
      CollapsedSpec(ReplaceTriples(s));
    }
  }

  /** What collapsing and stripping leaves is settled, and is what was there exactly if that was. */
  lemma CleanedIsSettled(s: string)
    ensures Settled(StripNewlines(Collapsed(s)))
    ensures StripNewlines(Collapsed(s)) == s <==> Settled(s)
  {
    CollapsedSpec(s);
    StripSpec(Collapsed(s));
    StripSpec(s);
  }

  // ----- Items -----

  /** No three line feeds in a row, not even with the one that ends the line, and none at the very end. */
  predicate CleanItems(boxes: seq<Block>) {
    forall i :: 0 <= i < |boxes| ==>
      !HasTriple(boxes[i].text) && !EndsWith(boxes[i].text, if i + 1 < |boxes| then "\n\n" else "\n")
  }

  lemma CleanCons(box: Block, rest: seq<Block>)
    requires rest != []
    ensures CleanItems([box] + rest) <==>
            !HasTriple(box.text) && !EndsWith(box.text, "\n\n") && CleanItems(rest)
  {
    var boxes := [box] + rest;
    if CleanItems(boxes) {
      assert boxes[0] == box;
      forall i | 0 <= i < |rest|
        ensures !HasTriple(rest[i].text) && !EndsWith(rest[i].text, if i + 1 < |rest| then "\n\n" else "\n")
      {
        assert boxes[i + 1] == rest[i];
      }
    }
  }

  function BoxLines(boxes: seq<Block>): seq<string>
    requires forall block :: block in boxes ==> block.Check?
  {
    if boxes == [] then []
    else
      assert boxes[0] in boxes && forall b :: b in boxes[1..] ==> b in boxes;
      [BoxLine(boxes[0].checked, boxes[0].text)] + BoxLines(boxes[1..])
  }

  lemma BoxLineTriples(checked: bool, text: string)
    ensures HasTriple(BoxLine(checked, text)) <==> HasTriple(text)
    ensures HasTriple(BoxLine(checked, text) + "\n") <==> HasTriple(text) || EndsWith(text, "\n\n")
    ensures BoxLine(checked, text)[|BoxLine(checked, text)| - 1] == '\n' <==> EndsWith(text, "\n")
  {
    var marker := if checked then "- [x] " else "- [ ] ";
    TripleAfter(marker, text);
    TripleAfter(marker, text + "\n");
    TripleThenBreak(text);
    assert marker + text + "\n" == marker + (text + "\n");
    if text != "" {
      assert text[|text| - 1..] == [text[|text| - 1]];
    }
  }

  lemma BoxLineStarts(checked: bool, text: string)
    ensures BoxLine(checked, text) != "" && BoxLine(checked, text)[0] == '-'
  {
  }

  lemma CleanOne(box: Block)
    ensures CleanItems([box]) <==> !HasTriple(box.text) && !EndsWith(box.text, "\n")
  {
    assert CleanItems([box]) ==> [box][0] == box;
  }

  /** The printed items are settled exactly if their texts are clean. */
  lemma {:induction false} ItemsSettled(boxes: seq<Block>)
    requires forall block :: block in boxes ==> block.Check?
    requires boxes != []
    ensures var s := Join(BoxLines(boxes));
      s != "" && s[0] == '-' && (Settled(s) <==> CleanItems(boxes))
  {
    hide HasTriple, BoxLine, EndsWith, CleanItems;
    var box, rest := boxes[0], boxes[1..];
    var line := BoxLine(box.checked, box.text);
    assert box in boxes && forall b :: b in rest ==> b in boxes;
    BoxLineTriples(box.checked, box.text);
    BoxLineStarts(box.checked, box.text);
    if rest == [] {
      assert BoxLines(boxes) == [line];
      assert boxes == [box];
      CleanOne(box);
    } else {
      ItemsSettled(rest);
      assert boxes == [box] + rest && BoxLines(boxes)[1..] == BoxLines(rest);
      CleanCons(box, rest);
      TripleCut(line + "\n", Join(BoxLines(rest)));
    }
  }

  lemma {:induction false} BoxesPrint(boxes: seq<Block>)
    requires forall block :: block in boxes ==> block.Check?
    ensures KeepLines(boxes, false, true) == BoxLines(boxes) == EmitAll(boxes, Box)
  {
    hide BoxLine;
    if boxes != [] {
      var line := [BoxLine(boxes[0].checked, boxes[0].text)];
      assert boxes[0] in boxes && forall b :: b in boxes[1..] ==> b in boxes;
      assert [] + line == line;
      BoxesPrint(boxes[1..]);
    }
  }

  // ----- Both bodies, paragraphs and items apart -----

  lemma {:induction false} JoinConcat(a: seq<string>, b: seq<string>)
    requires a != [] && b != []
    ensures Join(a + b) == Join(a) + "\n" + Join(b)
  {
    if |a| == 1 {
      assert (a + b)[1..] == b;
    } else {
      assert (a + b)[1..] == a[1..] + b;
      JoinConcat(a[1..], b);
    }
  }

  lemma JoinBeforeItems(rows: seq<string>, lines: seq<string>)
    requires rows != [] && lines != []
    ensures Join(rows + [""] + lines) == Join(rows) + "\n\n" + Join(lines)
  {
    JoinConcat(rows, [""] + lines);
    assert rows + [""] + lines == rows + ([""] + lines);
    JoinConcat([""], lines);
  }

  lemma {:induction false} KeepLinesSplit(paragraphs: seq<Block>, boxes: seq<Block>, first: bool, prevCheck: bool)
    requires forall block :: block in paragraphs ==> block.Text?
    requires forall block :: block in boxes ==> block.Check?
    requires paragraphs != [] && boxes != []
    ensures KeepLines(paragraphs + boxes, first, prevCheck) ==
            KeepLines(paragraphs, first, prevCheck) + [""] + BoxLines(boxes)
    ensures KeepLines(paragraphs, first, prevCheck) != []
  {
    var rest := paragraphs[1..];
    assert paragraphs[0] in paragraphs && forall b :: b in rest ==> b in paragraphs;
    assert (paragraphs + boxes)[1..] == rest + boxes;
    var head := KeepStep(paragraphs[0], first, prevCheck);
    if rest == [] {
      assert rest + boxes == boxes && head + [] == head;
      KeepLinesOfBoxes(boxes);
      Associate(head, [""], BoxLines(boxes));
    } else {
      KeepLinesSplit(rest, boxes, false, false);
      Reassociate(head, KeepLines(rest, false, false), [""], BoxLines(boxes));
    }
  }

  lemma KeepLinesOfBoxes(boxes: seq<Block>)
    requires forall block :: block in boxes ==> block.Check?
    requires boxes != []
    ensures KeepLines(boxes, false, false) == [""] + BoxLines(boxes)
  {
    assert boxes[0] in boxes;
    BoxesPrint(boxes);
    var line, rest := [BoxLine(boxes[0].checked, boxes[0].text)], KeepLines(boxes[1..], false, true);
    assert KeepLines(boxes, false, true) == line + rest by {
      assert [] + line == line;
    }
    Associate([""], line, rest);
  }

  /** The importer's body before collapsing and stripping. */
  lemma KeepText(paragraphs: seq<Block>, boxes: seq<Block>)
    requires forall block :: block in paragraphs ==> block.Text? && Filled(block)
    requires forall block :: block in boxes ==> block.Check?
    requires paragraphs != [] && boxes != []
    ensures var top := Join(Rows(paragraphs, true, false));
      && Rows(paragraphs, true, false) != [] && top != "" && Settled(top)
      && Join(KeepLines(paragraphs + boxes, true, false)) == top + "\n\n" + Join(BoxLines(boxes))
  {
    RowsAreSpaced(paragraphs, true, false);
    SpacedHasNoTriple(Rows(paragraphs, true, false));
    RowsJoin(paragraphs, true, false);
    KeepLinesSplit(paragraphs, boxes, true, false);
    JoinBeforeItems(KeepLines(paragraphs, true, false), BoxLines(boxes));
  }

  lemma TwoBreaksAreNoTriple(top: string)
    requires top != "" && Settled(top)
    ensures !HasTriple(top + "\n\n")
  {
    var t, n := top + "\n\n", |top|;
    assert t[n - 1] == top[n - 1];
    if i :| 0 <= i <= |t| - 3 && TripleAt(t, i) {
      assert TripleAt(top, i);
    }
  }

  lemma SettledAround(top: string, bottom: string)
    requires top != "" && Settled(top) && bottom != "" && bottom[0] != '\n'
    ensures Settled(top + "\n\n" + bottom) <==> Settled(bottom)
  {
    var s := top + "\n\n" + bottom;
    TripleCut(top + "\n\n", bottom);
    TwoBreaksAreNoTriple(top);
    assert s[0] == top[0] && s[|s| - 1] == bottom[|bottom| - 1];
  }

  /** What the last paragraph leaves as the printer's `prev`. */
  function PrevAfter(paragraphs: seq<Block>, prev: Prev): Prev {
    if paragraphs == [] then prev else PrevAfter(paragraphs[1..], After(paragraphs[0], prev))
  }

  lemma {:induction false} EmitSplit(a: seq<Block>, b: seq<Block>, prev: Prev)
    ensures EmitAll(a + b, prev) == EmitAll(a, prev) + EmitAll(b, PrevAfter(a, prev))
  {
    if a == [] {
      assert a + b == b;
    } else {
      assert (a + b)[1..] == a[1..] + b;
      EmitSplit(a[1..], b, After(a[0], prev));
    }
  }

  lemma {:induction false} PrevAfterText(paragraphs: seq<Block>, prev: Prev)
    requires prev != Box && forall block :: block in paragraphs ==> block.Text?
    ensures PrevAfter(paragraphs, prev) != Box
    ensures paragraphs != [] && AllHaveWords(paragraphs) ==> PrevAfter(paragraphs, prev) == Paragraph
  {
    if paragraphs != [] {
      assert paragraphs[0] in paragraphs && forall b :: b in paragraphs[1..] ==> b in paragraphs;
      PrevAfterText(paragraphs[1..], After(paragraphs[0], prev));
    }
  }

  /** What the editor prints above the items. */
  function Above(paragraphs: seq<Block>): seq<string> {
    EmitAll(paragraphs, Nothing) + (if PrevAfter(paragraphs, Nothing) == Paragraph then [""] else [])
  }

  lemma EmitBoxes(boxes: seq<Block>, prev: Prev)
    requires forall block :: block in boxes ==> block.Check?
    requires boxes != []
    ensures EmitAll(boxes, prev) == (if prev == Paragraph then [""] else []) + BoxLines(boxes)
  {
    assert boxes[0] in boxes;
    BoxesPrint(boxes);
    var line, rest := [BoxLine(boxes[0].checked, boxes[0].text)], EmitAll(boxes[1..], Box);
    assert EmitAll(boxes, Box) == line + rest by {
      assert [] + line == line;
    }
    Associate(if prev == Paragraph then [""] else [], line, rest);
  }

  lemma EmitAboveItems(paragraphs: seq<Block>, boxes: seq<Block>)
    requires forall block :: block in boxes ==> block.Check?
    requires boxes != []
    ensures EmitAll(paragraphs + boxes, Nothing) == Above(paragraphs) + BoxLines(boxes)
  {
    var prev := PrevAfter(paragraphs, Nothing);
    EmitSplit(paragraphs, boxes, Nothing);
    EmitBoxes(boxes, prev);
    Associate(EmitAll(paragraphs, Nothing), if prev == Paragraph then [""] else [], BoxLines(boxes));
  }

  lemma {:induction false} DropFrontBefore(lines: seq<string>, tail: seq<string>)
    requires tail != [] && !Blank(tail[0])
    ensures DropFront(lines + tail) == DropFront(lines) + tail
  {
    if lines == [] {
      assert lines + tail == tail;
    } else {
      assert (lines + tail)[1..] == lines[1..] + tail;
      DropFrontBefore(lines[1..], tail);
    }
  }

  lemma {:induction false} BoxLinesHaveText(boxes: seq<Block>)
    requires forall block :: block in boxes ==> block.Check?
    requires boxes != []
    ensures var lines := BoxLines(boxes);
      lines != [] && !Blank(lines[0]) && !Blank(lines[|lines| - 1])
  {
    assert boxes[0] in boxes && forall b :: b in boxes[1..] ==> b in boxes;
    assert BoxLine(boxes[0].checked, boxes[0].text)[0] == '-';
    if boxes[1..] != [] {
      BoxLinesHaveText(boxes[1..]);
    }
  }

  lemma LastOfConcat(a: seq<string>, b: seq<string>)
    requires b != [] && !Blank(b[|b| - 1])
    ensures DropBack(a + b) == a + b
  {
    assert (a + b)[|a + b| - 1] == b[|b| - 1];
  }

  /** The editor's body: only lines above the items can be trimmed. */
  lemma EditorText(paragraphs: seq<Block>, boxes: seq<Block>)
    requires forall block :: block in boxes ==> block.Check?
    requires boxes != []
    ensures var above := DropFront(Above(paragraphs));
      Serialized(paragraphs + boxes) ==
        (if above == [] then "" else Join(above) + "\n") + Join(BoxLines(boxes))
  {
    hide Above, EmitAll;
    var above := DropFront(Above(paragraphs));
    EmitAboveItems(paragraphs, boxes);
    BoxLinesHaveText(boxes);
    DropFrontBefore(Above(paragraphs), BoxLines(boxes));
    LastOfConcat(above, BoxLines(boxes));
    assert Serialized(paragraphs + boxes) == Join(above + BoxLines(boxes));
    if above == [] {
      assert above + BoxLines(boxes) == BoxLines(boxes);
    } else {
      JoinConcat(above, BoxLines(boxes));
    }
  }

  // ----- When the two bodies are the same -----

  lemma AboveUnbroken(paragraphs: seq<Block>)
    requires AllFilled(paragraphs)
    ensures Unbroken(Above(paragraphs)) && Unbroken(DropFront(Above(paragraphs)))
  {
    EmitUnbroken(paragraphs, Nothing);
    DropFrontSpec(Above(paragraphs));
  }

  /** The same text above the items comes from the same lines. */
  lemma SameTextSameLines(rows: seq<string>, above: seq<string>)
    requires rows != [] && Unbroken(rows) && Unbroken(above)
    ensures (if above == [] then "" else Join(above) + "\n") == Join(rows) + "\n\n" <==> above == rows + [""]
  {
    JoinConcat(rows, [""]);
    assert Join(rows) + "\n" + "" == Join(rows) + "\n";
    assert Join(rows) + "\n\n" == Join(rows + [""]) + "\n";
    if above == [] {
      assert |Join(rows) + "\n\n"| > 0;
    } else if Join(above) + "\n" == Join(rows + [""]) + "\n" {
      var a, b := Join(above), Join(rows + [""]);
      assert a == (a + "\n")[..|a|] && b == (b + "\n")[..|b|];
      SplitJoin(above);
      SplitJoin(rows + [""]);
    }
  }

  /** The lines above the items are kept whole exactly when no paragraph is blank for the editor. */
  lemma AboveIsRows(paragraphs: seq<Block>)
    requires forall block :: block in paragraphs ==> block.Text? && Filled(block)
    requires paragraphs != []
    ensures DropFront(Above(paragraphs)) == Rows(paragraphs, true, false) + [""] <==>
            AllHaveWords(paragraphs) && !Blank(FirstLine(paragraphs[0]))
  {
    var rows, above := Rows(paragraphs, true, false), Above(paragraphs);
    RowsEnd(paragraphs, true, false);
    PrevAfterText(paragraphs, Nothing);
    if AllHaveWords(paragraphs) && !Blank(FirstLine(paragraphs[0])) {
      RowsAgree(paragraphs, Nothing);
      assert above == rows + [""] && above[0] == rows[0];
    } else if DropFront(above) == rows + [""] {
      AboveHasWords(paragraphs);
    }
  }

  lemma AboveHasWords(paragraphs: seq<Block>)
    requires paragraphs != [] && DropFront(Above(paragraphs)) == Rows(paragraphs, true, false) + [""]
    ensures AllHaveWords(paragraphs) && !Blank(FirstLine(paragraphs[0]))
  {
    hide AllHaveWords;
    var rows, above := Rows(paragraphs, true, false), Above(paragraphs);
    RowsAreMore(paragraphs, true, false, Nothing);
    DropsShorten(above);
    assert |above| == |rows| + 1 && |EmitAll(paragraphs, Nothing)| == |rows|;
    RowsEnd(paragraphs, true, false);
    assert EmitAll(paragraphs, Nothing) != [] ==> above[0] == EmitAll(paragraphs, Nothing)[0];
    assert HasWords(paragraphs[0]) by {
      if !HasWords(paragraphs[0]) {
        FirstIsBlank(paragraphs);
      }
    }
    DropFrontSpec(above);
    assert DropFront(above)[0] == rows[0];
    WordsCons(paragraphs);
  }

  lemma WordsCons(blocks: seq<Block>)
    requires blocks != [] && HasWords(blocks[0]) && AllHaveWords(blocks[1..])
    ensures AllHaveWords(blocks)
  {
    assert forall b :: b in blocks ==> b == blocks[0] || b in blocks[1..];
  }

  lemma SuffixSettled(top: string, bottom: string)
    requires bottom != "" && bottom[0] == '-' && Settled(top + bottom)
    ensures Settled(bottom)
  {
    TripleCut(top, bottom);
    assert (top + bottom)[|top + bottom| - 1] == bottom[|bottom| - 1];
  }

  lemma CancelSuffix(a: string, b: string, c: string)
    ensures a + c == b + c <==> a == b
  {
    if a + c == b + c {
      assert a == (a + c)[..|a + c| - |c|] && b == (b + c)[..|b + c| - |c|];
    }
  }

  /** With paragraphs and items: the condition falls apart into one on each. */
  lemma BothPartsAgree(paragraphs: seq<Block>, boxes: seq<Block>)
    requires forall block :: block in paragraphs ==> block.Text? && Filled(block)
    requires forall block :: block in boxes ==> block.Check?
    requires paragraphs != [] && boxes != []
    ensures KeepSerialized(paragraphs + boxes) == Serialized(paragraphs + boxes) <==>
            AllHaveWords(paragraphs) && !Blank(FirstLine(paragraphs[0])) && CleanItems(boxes)
  {
    hide CleanItems, AllHaveWords, Blank, HasTriple, Above, Rows, BoxLines;
    var rows, above := Rows(paragraphs, true, false), DropFront(Above(paragraphs));
    var bottom := Join(BoxLines(boxes));
    var text, top := Join(KeepLines(paragraphs + boxes, true, false)), if above == [] then "" else Join(above) + "\n";
    KeepText(paragraphs, boxes);
    EditorText(paragraphs, boxes);
    ItemsSettled(boxes);
    CleanedIsSettled(text);
    SettledAround(Join(rows), bottom);
    RowsAreSpaced(paragraphs, true, false);
    AboveUnbroken(paragraphs);
    SameTextSameLines(rows, above);
    AboveIsRows(paragraphs);
    CancelSuffix(top, Join(rows) + "\n\n", bottom);
    if KeepSerialized(paragraphs + boxes) == Serialized(paragraphs + boxes) {
      SuffixSettled(top, bottom);
    }
  }

  lemma ItemsAgree(boxes: seq<Block>)
    requires forall block :: block in boxes ==> block.Check?
    requires boxes != []
    ensures KeepSerialized(boxes) == Serialized(boxes) <==> CleanItems(boxes)
  {
    assert boxes[0] in boxes;
    BoxesPrint(boxes);
    BoxLinesHaveText(boxes);
    ItemsSettled(boxes);
    CleanedIsSettled(Join(BoxLines(boxes)));
    EmitBoxes(boxes, Nothing);
    assert [] + BoxLines(boxes) == BoxLines(boxes);
    assert KeepLines(boxes, true, false) == KeepLines(boxes, false, true);
    RoundTrip.DropNothing(BoxLines(boxes));
  }

  /**
   * When an imported body is the one the editor would have stored, for every note: every paragraph has a
   * line the editor does not take for blank, so have both ends of the body, and no item text has line feeds
   * that the importer would collapse or strip.
   */
  predicate SameForEditor(raw: KeepNote) {
    && AllHaveWords(ParagraphBlocks(raw)) && CleanEnds(NoteBlocks(raw)) && CleanItems(Boxes(raw))
  }

  lemma KeepMatchesEditor(raw: KeepNote)
    ensures KeepSerialized(NoteBlocks(raw)) == Serialized(NoteBlocks(raw)) <==> SameForEditor(raw)
  {
    var paragraphs, boxes := ParagraphBlocks(raw), Boxes(raw);
    NoteParts(raw);
    if boxes == [] {
      assert paragraphs + boxes == paragraphs;
      PrintersAgreeExactly(paragraphs);
    } else {
      BoxLinesHaveText(boxes);
      NoteEnds(paragraphs, boxes);
      if paragraphs == [] {
        assert paragraphs + boxes == boxes;
        ItemsAgree(boxes);
      } else {
        BothPartsAgree(paragraphs, boxes);
      }
    }
  }

  lemma NoteEnds(paragraphs: seq<Block>, boxes: seq<Block>)
    requires forall block :: block in boxes ==> block.Check?
    requires boxes != []
    ensures CleanEnds(paragraphs + boxes) <==> paragraphs == [] || !Blank(FirstLine(paragraphs[0]))
  {
    var blocks, last := paragraphs + boxes, boxes[|boxes| - 1];
    assert boxes[0] in boxes && last in boxes && blocks[|blocks| - 1] == last;
    assert LastLine(last)[0] == '-' && FirstLine(boxes[0])[0] == '-';
    assert blocks[0] == if paragraphs == [] then boxes[0] else paragraphs[0];
  }

  /** A note that is a lone zero-width no-break space is imported as such, but stored as nothing. */
  lemma KeepCanDiffer()
    ensures var raw := KeepNote(Some("\U{FEFF}"), None);
      KeepSerialized(NoteBlocks(raw)) != Serialized(NoteBlocks(raw))
  {
    var raw := KeepNote(Some("\U{FEFF}"), None);
    var mark := "\U{FEFF}";
    assert ReplaceCrLf(mark) == mark && ReplaceCr(mark) == mark;
    SplitSingle(mark);
    assert !PyBlank(mark) by { assert !IsPySpace(mark[0]); }
    var none: seq<string> := [];
    assert none + [mark] == [mark] && [mark][1..] == none;
    assert Paragraphs([mark], none) == Paragraphs(none, [mark]);
    assert NoteBlocks(raw) == [Text(mark)];
    KeepMatchesEditor(raw);
    assert !HasWords(Text(mark));
    assert Text(mark) in ParagraphBlocks(raw);
  }

  lemma DenseBlock(block: Block)
    requires block.Text? ==> forall line :: line in Split(block.text) ==> !Blank(line)
    ensures HasWords(block) && !Blank(FirstLine(block)) && !Blank(LastLine(block))
  {
    if block.Text? {
      var lines := Split(block.text);
      assert lines[0] in lines && lines[|lines| - 1] in lines;
    } else {
      assert FirstLine(block)[0] == '-';
    }
  }

  lemma DenseParagraphs(raw: KeepNote)
    requires forall line :: line in TextLines(raw) && !PyBlank(line) ==> !Blank(line)
    ensures AllHaveWords(ParagraphBlocks(raw)) && CleanEnds(NoteBlocks(raw))
  {
    hide Blank, PyBlank, FirstLine, LastLine, HasWords, ParagraphBlocks, Boxes, TextLines, NoteBlocks;
    var blocks := NoteBlocks(raw);
    NoteParts(raw);
    forall block | block in blocks
      ensures HasWords(block) && !Blank(FirstLine(block)) && !Blank(LastLine(block))
    {
      assert block.Text? ==> block in ParagraphBlocks(raw);
      DenseBlock(block);
    }
    assert forall block :: block in ParagraphBlocks(raw) ==> block in blocks;
    if blocks != [] {
      assert blocks[0] in blocks && blocks[|blocks| - 1] in blocks;
    }
  }

  /** When no line is made of U+FEFF and white space, only line feeds inside item texts can make a difference. */
  lemma KeepMatchesEditorOnText(raw: KeepNote)
    requires forall line :: line in TextLines(raw) && !PyBlank(line) ==> !Blank(line)
    ensures KeepSerialized(NoteBlocks(raw)) == Serialized(NoteBlocks(raw)) <==> CleanItems(Boxes(raw))
  {
    DenseParagraphs(raw);
    KeepMatchesEditor(raw);
  }

  // ----- Imported bodies as fixed points -----

  lemma {:induction false} BoxRowsAreCanonical(boxes: seq<Block>)
    requires forall block :: block in boxes ==> block.Check? && SingleLine(block.text)
    ensures CanonicalFrom(Rows(boxes, false, true), [], true)
  {
    if boxes != [] {
      assert boxes[0] in boxes && forall b :: b in boxes[1..] ==> b in boxes;
      BoxRowsAreCanonical(boxes[1..]);
      BoxPrintsCanonical(boxes[0], Rows(boxes[1..], false, true), true);
    }
  }

  lemma {:induction false} RowsSplit(paragraphs: seq<Block>, boxes: seq<Block>, first: bool, prevCheck: bool)
    requires forall block :: block in paragraphs ==> block.Text?
    requires forall block :: block in boxes ==> block.Check?
    ensures Rows(paragraphs + boxes, first, prevCheck) ==
            if paragraphs == [] then Rows(boxes, first, prevCheck)
            else Rows(paragraphs, first, prevCheck) + Rows(boxes, false, false)
  {
    hide FirstRows;
    if paragraphs == [] {
      assert paragraphs + boxes == boxes;
    } else {
      var rest := paragraphs[1..];
      var head := FirstRows(paragraphs[0], first, prevCheck);
      assert paragraphs[0] in paragraphs && forall b :: b in rest ==> b in paragraphs;
      TailOfConcat(paragraphs, boxes);
      RowsSplit(rest, boxes, false, false);
      if rest == [] {
        assert Rows(rest, false, false) == [] && head + [] == head;
      } else {
        Associate(head, Rows(rest, false, false), Rows(boxes, false, false));
      }
    }
  }

  lemma {:induction false} ParagraphRowsHaveNoBoxes(paragraphs: seq<Block>, first: bool, prevCheck: bool)
    requires forall block :: block in paragraphs ==> block.Text? && NoBoxes(Split(block.text))
    ensures NoBoxes(Rows(paragraphs, first, prevCheck))
  {
    if paragraphs != [] {
      assert paragraphs[0] in paragraphs && forall b :: b in paragraphs[1..] ==> b in paragraphs;
      ParagraphRowsHaveNoBoxes(paragraphs[1..], false, false);
    }
  }

  lemma RunEnds(run: seq<string>)
    requires run != []
    ensures CanonicalRun(run, false, false) <==> !Blank(run[0]) && !Blank(run[|run| - 1])
  {
    assert run[0] in run;
  }

  lemma RunAlone(run: seq<string>)
    requires NoBoxes(run) && run != []
    ensures CanonicalFrom(run, [], false) <==> !Blank(run[0]) && !Blank(run[|run| - 1])
  {
    var none: seq<string> := [];
    assert run + none == run && none + run == run;
    assert CanonicalFrom(run, none, false) == CanonicalFrom(none, run, false) by {
      CanonicalRest(run, none, none, false);
    }
    RunEnds(run);
  }

  lemma RunAboveBox(run: seq<string>, tail: seq<string>)
    requires NoBoxes(run) && run != []
    requires tail != [] && IsBox(tail[0]) && CanonicalFrom(tail, [], true)
    ensures CanonicalFrom(run + ([""] + tail), [], false) <==> !Blank(run[0])
  {
    var all := run + [""];
    assert run + ([""] + tail) == all + tail && [] + all == all;
    CanonicalRest(all, tail, [], false);
    assert all[0] == run[0] && all[0] in all && all[|all| - 1] == "";
  }

  lemma FirstBoxRows(boxes: seq<Block>)
    requires forall block :: block in boxes ==> block.Check? && SingleLine(block.text)
    requires boxes != []
    ensures var rows := Rows(boxes, false, true);
      && rows != [] && IsBox(rows[0]) && CanonicalFrom(rows, [], true) && CanonicalFrom(rows, [], false)
    ensures !Blank(LastLine(boxes[|boxes| - 1]))
  {
    var rest := Rows(boxes[1..], false, true);
    var last := boxes[|boxes| - 1];
    assert boxes[0] in boxes && last in boxes && forall b :: b in boxes[1..] ==> b in boxes;
    assert CanonicalFrom(rest, [], true) by { BoxRowsAreCanonical(boxes[1..]); }
    BoxPrintsCanonical(boxes[0], rest, true);
    BoxPrintsCanonical(boxes[0], rest, false);
    BoxLineReadsBack(last.checked, last.text);
  }

  lemma SeparatedBoxRows(boxes: seq<Block>)
    requires boxes != [] && boxes[0].Check?
    ensures Rows(boxes, false, false) == [""] + Rows(boxes, false, true)
    ensures Rows(boxes, true, false) == Rows(boxes, false, true)
  {
  }

  /** The text above the boxes is one run; its first line must have words, and its last if no box follows. */
  lemma RowsAreCanonical(paragraphs: seq<Block>, boxes: seq<Block>)
    requires forall block :: block in paragraphs ==> block.Text? && NoBoxes(Split(block.text))
    requires forall block :: block in boxes ==> block.Check? && SingleLine(block.text)
    requires paragraphs + boxes != []
    ensures CanonicalFrom(Rows(paragraphs + boxes, true, false), [], false) <==> CleanEnds(paragraphs + boxes)
  {
    RowsSplit(paragraphs, boxes, true, false);
    if paragraphs == [] {
      assert paragraphs + boxes == boxes && boxes[0] in boxes;
      FirstBoxRows(boxes);
      SeparatedBoxRows(boxes);
      BoxLineReadsBack(boxes[0].checked, boxes[0].text);
    } else {
      ParagraphsAboveBoxes(paragraphs, boxes);
    }
  }

  lemma ParagraphsAboveBoxes(paragraphs: seq<Block>, boxes: seq<Block>)
    requires forall block :: block in paragraphs ==> block.Text? && NoBoxes(Split(block.text))
    requires forall block :: block in boxes ==> block.Check? && SingleLine(block.text)
    requires paragraphs != []
    ensures CanonicalFrom(Rows(paragraphs, true, false) + Rows(boxes, false, false), [], false) <==>
            CleanEnds(paragraphs + boxes)
  {
    var run := Rows(paragraphs, true, false);
    ParagraphRowsHaveNoBoxes(paragraphs, true, false);
    RowsEnd(paragraphs, true, false);
    if boxes == [] {
      assert paragraphs + boxes == paragraphs && run + [] == run;
      RunAlone(run);
    } else {
      var blocks := paragraphs + boxes;
      assert blocks[0] == paragraphs[0] && blocks[|blocks| - 1] == boxes[|boxes| - 1];
      assert boxes[0] in boxes;
      FirstBoxRows(boxes);
      SeparatedBoxRows(boxes);
      RunAboveBox(run, Rows(boxes, false, true));
    }
  }

  predicate SingleLineItems(raw: KeepNote) {
    forall block :: block in Boxes(raw) ==> SingleLine(block.text)
  }

  lemma SingleLineNote(raw: KeepNote)
    requires SingleLineItems(raw)
    ensures AllFilled(NoteBlocks(raw))
    ensures forall block :: block in Boxes(raw) ==> block.Check? && SingleLine(block.text)
  {
    NoteParts(raw);
  }

  /**
   * Every imported body opens and saves unchanged exactly when it is canonical; with one-line items and no
   * box-shaped line of text, exactly when its ends are not blank for the editor.
   */
  lemma KeepBodyIsAFixedPoint(raw: KeepNote)
    ensures var body := KeepSerialized(NoteBlocks(raw));
      Serialized(Parsed(body)) == body <==> Canonical(body)
    ensures SingleLineItems(raw) && NoBoxes(TextLines(raw)) ==>
              var body := KeepSerialized(NoteBlocks(raw));
              Serialized(Parsed(body)) == body <==> CleanEnds(NoteBlocks(raw))
  {
    FixedPointsAreCanonical(KeepSerialized(NoteBlocks(raw)));
    if SingleLineItems(raw) && NoBoxes(TextLines(raw)) {
      CanonicalNote(raw);
    }
  }

  lemma TextHasNoBoxes(blocks: seq<Block>, lines: seq<string>)
    requires NoBoxes(lines)
    requires forall block :: block in blocks ==> block.Text?
    requires forall block, line :: block in blocks && line in Split(block.text) ==> line in lines
    ensures forall block :: block in blocks ==> block.Text? && NoBoxes(Split(block.text))
  {
    hide IsBox, Split;
  }

  lemma CanonicalParts(paragraphs: seq<Block>, boxes: seq<Block>)
    requires AllFilled(paragraphs + boxes)
    requires forall block :: block in paragraphs ==> block.Text? && NoBoxes(Split(block.text))
    requires forall block :: block in boxes ==> block.Check? && SingleLine(block.text)
    ensures Canonical(KeepSerialized(paragraphs + boxes)) <==> CleanEnds(paragraphs + boxes)
  {
    if paragraphs + boxes == [] {
      KeepSerializedRows([]);
    } else {
      hide KeepSerialized, Rows, CleanEnds, Filled, CanonicalFrom, NoBoxes;
      KeepSerializedRows(paragraphs + boxes);
      RowsAreCanonical(paragraphs, boxes);
    }
  }

  lemma CanonicalNote(raw: KeepNote)
    requires SingleLineItems(raw) && NoBoxes(TextLines(raw))
    ensures Canonical(KeepSerialized(NoteBlocks(raw))) <==> CleanEnds(NoteBlocks(raw))
  {
    NoteParts(raw);
    SingleLineNote(raw);
    hide KeepSerialized, NoteBlocks, ParagraphBlocks, Boxes, TextLines, PyBlank, CleanEnds, Canonical, Split, NoBoxes, Filled;
    TextHasNoBoxes(ParagraphBlocks(raw), TextLines(raw));
    CanonicalParts(ParagraphBlocks(raw), Boxes(raw));
  }
}
