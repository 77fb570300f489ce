/** Which stored bodies survive a reopening and a save unchanged. */
module CanonicalBodies {
  import opened Text
  import opened Markdown
  import opened RoundTrip

  /** A maximal run of lines that are not boxes, given whether boxes stand around it. */
  predicate CanonicalRun(run: seq<string>, after: bool, before: bool) {
    run == [] ||
    if AllBlank(run) then after && before && AllEmpty(run)
    else
      && (if after then run[0] == "" else !Blank(run[0]))
      && (if before then run[|run| - 1] == "" else !Blank(run[|run| - 1]))
  }

  /** Every run is canonical and every box line has the printed shape. */
  predicate CanonicalFrom(lines: seq<string>, run: seq<string>, after: bool) {
    if lines == [] then CanonicalRun(run, after, false)
    else if IsBox(lines[0]) then
      && CanonicalRun(run, after, true)
      && lines[0] == BoxLine(BoxOf(lines[0]).checked, BoxOf(lines[0]).text)
      && CanonicalFrom(lines[1..], [], true)
    else CanonicalFrom(lines[1..], run + [lines[0]], after)
  }

  predicate Canonical(body: string) {
    body == "" || CanonicalFrom(Split(body), [], false)
  }

  // ----- Canonical bodies are exactly the fixed points -----

  lemma {:induction false} CanonicalRest(lines: seq<string>, rest: seq<string>, run: seq<string>, after: bool)
    requires NoBoxes(lines)
    ensures CanonicalFrom(lines + rest, run, after) == CanonicalFrom(rest, run + lines, after)
  {
    if lines == [] {
      assert lines + rest == rest && run + lines == run;
    } else {
      CanonicalRest(lines[1..], rest, run + [lines[0]], after);
      assert (lines + rest)[1..] == lines[1..] + rest;
      assert run + [lines[0]] + lines[1..] == run + lines;
    }
  }

  lemma WrappedIsCanonical(lines: seq<string>, after: bool, before: bool)
    requires lines != [] && NormalLines(lines, after, before)
    ensures CanonicalRun(Wrapped(lines, after, before), after, before)
  {
    if !AllBlank(lines) {
      var run := Wrapped(lines, after, before);
      assert run[if after then 1 else 0] == lines[0];
      assert exists line :: line in lines && !Blank(line) && line in run;
      assert !before ==> run[|run| - 1] == lines[|lines| - 1];
    }
  }

  lemma TextPrintsCanonical(text: string, after: bool, before: bool, rest: seq<string>)
    requires NormalLines(Split(text), after, before)
    requires before <==> rest != []
    requires before ==> IsBox(rest[0]) && CanonicalFrom(rest, [], after)
    ensures CanonicalFrom(Wrapped(Split(text), after, before) + rest, [], after)
  {
    var run := Wrapped(Split(text), after, before);
    WrappedIsCanonical(Split(text), after, before);
    WrappedHasNoBoxes(Split(text), after, before);
    CanonicalRest(run, rest, [], after);
    assert [] + run == run;
  }

  lemma BoxPrintsCanonical(box: Block, rest: seq<string>, after: bool)
    requires box.Check? && SingleLine(box.text)
    requires CanonicalFrom(rest, [], true)
    ensures IsBox(([BoxLine(box.checked, box.text)] + rest)[0])
    ensures CanonicalFrom([BoxLine(box.checked, box.text)] + rest, [], after)
  {
    BoxLineReadsBack(box.checked, box.text);
    assert ([BoxLine(box.checked, box.text)] + rest)[1..] == rest;
  }

  lemma {:induction false} NormalPrintsCanonical(blocks: seq<Block>, prev: Prev)
    requires prev != Paragraph && NormalFrom(blocks, prev == Box)
    ensures CanonicalFrom(EmitAll(blocks, prev), [], prev == Box)
  {
    if blocks != [] {
      assert NormalAt(blocks, 0, prev == Box);
      NormalTail(blocks, prev == Box);
      if blocks[0].Check? {
        NormalPrintsCanonical(blocks[1..], Box);
        BoxPrintsCanonical(blocks[0], EmitAll(blocks[1..], Box), prev == Box);
      } else {
        EmitText(blocks, prev);
        if |blocks| > 1 {
          assert NormalAt(blocks, 1, prev == Box);
          NormalTail(blocks[1..], true);
          assert blocks[1..][1..] == blocks[2..];
          NormalPrintsCanonical(blocks[2..], Box);
          var tail := EmitAll(blocks[2..], Box);
          BoxPrintsCanonical(blocks[1], tail, prev == Box);
          TextPrintsCanonical(blocks[0].text, prev == Box, true, [BoxLine(blocks[1].checked, blocks[1].text)] + tail);
        } else {
          var run := Wrapped(Split(blocks[0].text), prev == Box, false);
          TextPrintsCanonical(blocks[0].text, prev == Box, false, []);
          assert run + [] == run;
        }
      }
    }
  }

  /** A canonical run is the wrapping of what its block will hold. */
  lemma CanonicalRunUnwraps(run: seq<string>, after: bool, before: bool) returns (lines: seq<string>)
    requires run != [] && NoBoxes(run) && CanonicalRun(run, after, before)
    ensures lines != [] && NormalLines(lines, after, before) && run == Wrapped(lines, after, before)
    ensures forall line :: line in lines ==> line in run
  {
    if AllBlank(run) {
      return run;
    }
    var lo, hi := if after then 1 else 0, if before then |run| - 1 else |run|;
    var k :| 0 <= k < |run| && !Blank(run[k]);
    lines := run[lo..hi];
    assert lines[k - lo] == run[k] && lines[k - lo] in lines;
    assert run == (if after then [""] else []) + lines + (if before then [""] else []);
  }

  lemma FlushCanonical(run: seq<string>, after: bool, before: bool)
    requires NoBoxes(run) && Unbroken(run) && CanonicalRun(run, after, before)
    ensures run == [] ==> Flush(run, after, before) == []
    ensures run != [] ==>
              && |Flush(run, after, before)| == 1
              && Flush(run, after, before)[0].Text?
              && NormalLines(Split(Flush(run, after, before)[0].text), after, before)
              && Wrapped(Split(Flush(run, after, before)[0].text), after, before) == run
  {
    if run != [] {
      var lines := CanonicalRunUnwraps(run, after, before);
      FlushWrapped(lines, after, before);
      SplitJoin(lines);
    }
  }

  lemma RunPrintsBack(run: seq<string>, after: bool)
    requires NoBoxes(run) && Unbroken(run) && CanonicalRun(run, after, false)
    ensures EmitAll(Flush(run, after, false), if after then Box else Nothing) == run
  {
    FlushCanonical(run, after, false);
    if run != [] {
      EmitText(Flush(run, after, false), if after then Box else Nothing);
    }
  }

  lemma BoxPrintsBack(run: seq<string>, after: bool, box: string, rest: seq<Block>)
    requires NoBoxes(run) && Unbroken(run) && CanonicalRun(run, after, true)
    requires IsBox(box) && box == BoxLine(BoxOf(box).checked, BoxOf(box).text)
    ensures EmitAll(Flush(run, after, true) + ([BoxOf(box)] + rest), if after then Box else Nothing) ==
            run + ([box] + EmitAll(rest, Box))
  {
    var prev := if after then Box else Nothing;
    var flushed, tail := Flush(run, after, true), [BoxOf(box)] + rest;
    FlushCanonical(run, after, true);
    hide EmitAll, Flush, IsBox, CanonicalRun, BoxLine, BoxLabel, Wrapped, NormalLines, Split;
    if run == [] {
      assert flushed + tail == tail && tail[1..] == rest;
      EmitCheck(tail, prev);
      assert run + ([box] + EmitAll(rest, Box)) == [box] + EmitAll(rest, Box);
    } else {
      var blocks := flushed + tail;
      assert blocks[0] == flushed[0] && blocks[1] == BoxOf(box) && blocks[2..] == rest;
      EmitText(blocks, prev);
    }
  }

  lemma ParseAtBox(lines: seq<string>, run: seq<string>, after: bool)
    requires lines != [] && IsBox(lines[0])
    ensures ParseFrom(lines, run, after) ==
            Flush(run, after, true) + ([BoxOf(lines[0])] + ParseFrom(lines[1..], [], true))
  {
  }

  lemma {:induction false} CanonicalPrintsBack(lines: seq<string>, run: seq<string>, after: bool)
    requires NoBoxes(run) && Unbroken(run) && Unbroken(lines)
    requires CanonicalFrom(lines, run, after)
    ensures EmitAll(ParseFrom(lines, run, after), if after then Box else Nothing) == run + lines
  {
    hide EmitAll, Flush, CanonicalRun, BoxLine, IsBox;
    if lines == [] {
      RunPrintsBack(run, after);
      assert run + lines == run;
    } else {
      var first, tail := lines[0], lines[1..];
      assert lines == [first] + tail;
      if IsBox(first) {
        var rest := ParseFrom(tail, [], true);
        assert EmitAll(rest, Box) == tail by {
          CanonicalPrintsBack(tail, [], true);
          assert [] + tail == tail;
        }
        ParseAtBox(lines, run, after);
        BoxPrintsBack(run, after, first, rest);
      } else {
        CanonicalPrintsBack(tail, run + [first], after);
        assert run + [first] + tail == run + lines;
      }
    }
  }

  lemma PrintedIsCanonical(blocks: seq<Block>)
    requires Normal(blocks)
    ensures Canonical(Serialized(blocks))
  {
    if blocks != [] {
      EmittedEdges(blocks, Nothing);
      DropNothing(EmitAll(blocks, Nothing));
      SplitJoin(EmitAll(blocks, Nothing));
      NormalPrintsCanonical(blocks, Nothing);
    }
  }

  lemma CanonicalIsFixed(body: string)
    requires body != "" && Canonical(body)
    ensures Serialized(Parsed(body)) == body
  {
    var lines := Split(body);
    ParsedIsNormal(body);
    CanonicalPrintsBack(lines, [], false);
    assert [] + lines == lines;
    if Parsed(body) != [] {
      EmittedEdges(Parsed(body), Nothing);
    }
    DropNothing(lines);
    JoinSplit(body);
  }

  /** Reopening and saving leaves a body alone exactly when it is canonical. */
  lemma FixedPointsAreCanonical(body: string)
    ensures Serialized(Parsed(body)) == body <==> Canonical(body)
  {
    ParsedIsNormal(body);
    PrintedIsCanonical(Parsed(body));
    if body == "" {
      SerializedParsesBack([]);
    } else if Canonical(body) {
      CanonicalIsFixed(body);
    }
  }

  // ----- What the editor stores is canonical -----

  /** Single-line labels, no checkbox-shaped paragraph line, blank-only text made of empty lines. */
  predicate Storable(block: Block) {
    match block
    case Check(_, text) => SingleLine(text)
    case Text(text) => NoBoxes(Split(text)) && (AllBlank(Split(text)) ==> AllEmpty(Split(text)))
  }

  predicate AllStorable(blocks: seq<Block>) {
    forall block :: block in blocks ==> Storable(block)
  }

  /** Canonical but for blank lines at the edges of the body. */
  predicate LooseRun(run: seq<string>, after: bool, before: bool) {
    run == [] ||
    if AllBlank(run) then AllEmpty(run)
    else (after ==> run[0] == "") && (before ==> run[|run| - 1] == "")
  }

  predicate LooseFrom(lines: seq<string>, run: seq<string>, after: bool) {
    if lines == [] then LooseRun(run, after, false)
    else if IsBox(lines[0]) then
      && LooseRun(run, after, true)
      && lines[0] == BoxLine(BoxOf(lines[0]).checked, BoxOf(lines[0]).text)
      && LooseFrom(lines[1..], [], true)
    else LooseFrom(lines[1..], run + [lines[0]], after)
  }

  lemma {:induction false} LooseRest(lines: seq<string>, rest: seq<string>, run: seq<string>, after: bool)
    requires NoBoxes(lines)
    ensures LooseFrom(lines + rest, run, after) == LooseFrom(rest, run + lines, after)
  {
    if lines == [] {
      assert lines + rest == rest && run + lines == run;
    } else {
      LooseRest(lines[1..], rest, run + [lines[0]], after);
      assert (lines + rest)[1..] == lines[1..] + rest;
      assert run + [lines[0]] + lines[1..] == run + lines;
    }
  }

  /** What the printer's `prev` says about the lines printed since the last box. */
  predicate Pending(run: seq<string>, after: bool, prev: Prev) {
    match prev
    case Nothing => !after && AllEmpty(run)
    case Box => after && AllEmpty(run)
    case Paragraph => !AllBlank(run) && (after ==> run[0] == "")
  }

  lemma LooseBox(line: string, lines: seq<string>, run: seq<string>, after: bool, prev: Prev)
    requires IsBox(line) && line == BoxLine(BoxOf(line).checked, BoxOf(line).text)
    requires LooseFrom(lines, [], true) && Pending(run, after, prev)
    ensures LooseFrom((if prev == Paragraph then [""] else []) + [line] + lines, run, after)
  {
    var tail := [line] + lines;
    assert tail[1..] == lines;
    if prev == Paragraph {
      assert [""] + [line] + lines == [""] + tail && ([""] + tail)[1..] == tail;
      assert run[0] in run && exists l :: l in run && !Blank(l) && l in run + [""];
      assert LooseFrom(tail, run + [""], after);
    } else {
      assert [] + [line] + lines == tail;
    }
  }

  lemma {:induction false} EmitAllLoose(blocks: seq<Block>, prev: Prev, run: seq<string>, after: bool)
    requires AllStorable(blocks) && Pending(run, after, prev)
    ensures LooseFrom(EmitAll(blocks, prev), run, after)
    ensures Unbroken(EmitAll(blocks, prev))
  {
    if blocks != [] {
      var block, rest := blocks[0], blocks[1..];
      assert block in blocks && forall b :: b in rest ==> b in blocks;
      if block.Check? {
        BoxLineReadsBack(block.checked, block.text);
        EmitAllLoose(rest, Box, [], true);
        LooseBox(BoxLine(block.checked, block.text), EmitAll(rest, Box), run, after, prev);
      } else {
        var printed, next := Emit(block, prev), After(block, prev);
        PendingGrows(block.text, prev, run, after);
        EmitAllLoose(rest, next, run + printed, after);
        LooseRest(printed, EmitAll(rest, next), run, after);
      }
    }
  }

  lemma PendingGrows(text: string, prev: Prev, run: seq<string>, after: bool)
    requires Storable(Text(text)) && Pending(run, after, prev)
    ensures Pending(run + Emit(Text(text), prev), after, After(Text(text), prev))
    ensures NoBoxes(Emit(Text(text), prev)) && Unbroken(Emit(Text(text), prev))
  {
    var lines := Split(text);
    var printed := Emit(Text(text), prev);
    if AllBlank(lines) {
      if prev == Paragraph {
        assert exists l :: l in run && !Blank(l) && l in run + printed;
      }
    } else {
      assert exists l :: l in lines && !Blank(l) && l in run + printed;
      if after && run == [] {
        assert (run + printed)[0] == "";
      } else if after {
        assert run[0] in run;
      }
    }
  }

  lemma {:induction false} LooseDropsFirst(lines: seq<string>, run: seq<string>)
    requires run != [] && Blank(run[0]) && LooseFrom(lines, run, false)
    ensures LooseFrom(lines, run[1..], false)
  {
    if lines == [] || IsBox(lines[0]) {
      assert run == [run[0]] + run[1..];
      assert run[1..] != [] ==> run[1..][|run| - 2] == run[|run| - 1];
      assert forall l :: l in run[1..] ==> l in run;
    } else {
      assert (run + [lines[0]])[1..] == run[1..] + [lines[0]];
      LooseDropsFirst(lines[1..], run + [lines[0]]);
    }
  }

  lemma {:induction false} LooseDropsFront(lines: seq<string>)
    requires LooseFrom(lines, [], false)
    ensures LooseFrom(DropFront(lines), [], false)
  {
    if lines != [] && Blank(lines[0]) {
      assert [] + [lines[0]] == [lines[0]];
      LooseDropsFirst(lines[1..], [lines[0]]);
      assert [lines[0]][1..] == [];
      LooseDropsFront(lines[1..]);
    }
  }

  lemma {:induction false} LooseDropsLast(lines: seq<string>, last: string, run: seq<string>, after: bool)
    requires Blank(last) && LooseFrom(lines + [last], run, after)
    ensures LooseFrom(lines, run, after)
  {
    if lines == [] {
      assert ([] + [last])[1..] == [] && ([] + [last])[0] == last;
      assert LooseRun(run + [last], after, false);
      assert forall l :: l in run ==> l in run + [last];
      assert AllBlank(run + [last]) == AllBlank(run);
    } else {
      assert (lines + [last])[1..] == lines[1..] + [last];
      if IsBox(lines[0]) {
        LooseDropsLast(lines[1..], last, [], true);
      } else {
        LooseDropsLast(lines[1..], last, run + [lines[0]], after);
      }
    }
  }

  lemma {:induction false} LooseDropsBack(lines: seq<string>)
    requires LooseFrom(lines, [], false)
    ensures LooseFrom(DropBack(lines), [], false)
  {
    var n := |lines|;
    if lines != [] && Blank(lines[n - 1]) {
      assert lines == lines[..n - 1] + [lines[n - 1]];
      LooseDropsLast(lines[..n - 1], lines[n - 1], [], false);
      LooseDropsBack(lines[..n - 1]);
    }
  }

  lemma {:induction false} LooseWithCleanEdges(lines: seq<string>, run: seq<string>, after: bool)
    requires LooseFrom(lines, run, after)
    requires run + lines != [] ==>
               && (after || !Blank((run + lines)[0]))
               && !Blank((run + lines)[|run + lines| - 1])
    ensures CanonicalFrom(lines, run, after)
  {
    if lines == [] {
      assert run + lines == run;
      assert run != [] ==> run[|run| - 1] in run;
    } else if IsBox(lines[0]) {
      assert run != [] ==> run[0] == (run + lines)[0] && run[0] in run;
      assert lines[1..] != [] ==> ([] + lines[1..])[|lines| - 2] == (run + lines)[|run + lines| - 1];
      LooseWithCleanEdges(lines[1..], [], true);
    } else {
      assert run + [lines[0]] + lines[1..] == run + lines;
      LooseWithCleanEdges(lines[1..], run + [lines[0]], after);
    }
  }

  lemma TrimmedIsCanonical(printed: seq<string>)
    requires Unbroken(printed) && LooseFrom(printed, [], false)
    ensures Canonical(Join(DropBack(DropFront(printed))))
  {
    hide LooseFrom, CanonicalFrom, DropFront, DropBack, Blank;
    var fronted := DropFront(printed);
    var lines := DropBack(fronted);
    LooseDropsFront(printed);
    LooseDropsBack(fronted);
    DropFrontSpec(printed);
    DropBackSpec(fronted);
    if lines != [] {
      assert [] + lines == lines;
      LooseWithCleanEdges(lines, [], false);
      SplitJoin(lines);
    }
  }

  /** For any editor list of storable blocks, adjacent paragraphs included. */
  lemma StoredBodiesAreFixedPoints(blocks: seq<Block>)
    requires AllStorable(blocks)
    ensures Serialized(Parsed(Serialized(blocks))) == Serialized(blocks)
  {
    EmitAllLoose(blocks, Nothing, [], false);
    TrimmedIsCanonical(EmitAll(blocks, Nothing));
    FixedPointsAreCanonical(Serialized(blocks));
  }

  /** White space between two boxes is lost: such a list is stored, but not as a fixed point. */
  lemma SpacesBetweenBoxesAreLost(first: Block, spaces: string, second: Block)
    requires first.Check? && second.Check? && SingleLine(first.text) && SingleLine(second.text)
    requires spaces != "" && Blank(spaces) && NoNewline(spaces)
    ensures var body := Serialized([first, Text(spaces), second]);
      Serialized(Parsed(body)) != body
  {
    var blocks := [first, Text(spaces), second];
    var above, below := BoxLine(first.checked, first.text), BoxLine(second.checked, second.text);
    BoxLineReadsBack(first.checked, first.text);
    BoxLineReadsBack(second.checked, second.text);
    SplitSingle(spaces);
    assert blocks[1..] == [blocks[1], second] && blocks[1..][1..] == [second];
    assert EmitAll([second], Box) == [below];
    assert EmitAll(blocks[1..], Box) == [spaces] + [below];
    var lines := [above, spaces, below];
    assert EmitAll(blocks, Nothing) == [above] + ([spaces] + [below]) == lines;
    DropNothing(lines);
    SplitJoin(lines);
    SpacesAreNotCanonical(above, spaces, below);
    FixedPointsAreCanonical(Serialized(blocks));
  }

  lemma SpacesAreNotCanonical(above: string, spaces: string, below: string)
    requires IsBox(above) && IsBox(below) && spaces != "" && Blank(spaces)
    ensures !CanonicalFrom([above, spaces, below], [], false)
  {
    var lines := [above, spaces, below];
    assert lines[1..] == [spaces, below] && lines[1..][1..] == [below];
    assert [] + [spaces] == [spaces] && spaces in [spaces];
    assert !CanonicalRun([spaces], true, true);
    assert !CanonicalFrom([below], [spaces], true);
    assert !CanonicalFrom([spaces, below], [], true);
  }
}
