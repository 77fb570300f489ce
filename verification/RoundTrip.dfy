/** What printing and parsing promise together: normal forms and fixed points. */
module RoundTrip {
  import opened Sequences
  import opened Text
  import opened Markdown

  // ----- Normal form -----

  /** Lines a text block may hold, given whether a box precedes and follows it. */
  predicate NormalLines(lines: seq<string>, after: bool, before: bool)
    requires lines != []
  {
    && NoBoxes(lines)
    && if AllBlank(lines) then after && before && AllEmpty(lines)
       else (after || !Blank(lines[0])) && (before || !Blank(lines[|lines| - 1]))
  }

  predicate NormalAt(blocks: seq<Block>, i: nat, after: bool)
    requires i < |blocks|
  {
    match blocks[i]
    case Check(_, text) => SingleLine(text)
    case Text(text) =>
      && (i + 1 < |blocks| ==> blocks[i + 1].Check?)
      && NormalLines(Split(text), after || i > 0, i + 1 < |blocks|)
  }

  /** `after` says whether a box stands just before the list. */
  predicate NormalFrom(blocks: seq<Block>, after: bool) {
    forall i :: 0 <= i < |blocks| ==> NormalAt(blocks, i, after)
  }

  predicate Normal(blocks: seq<Block>) {
    NormalFrom(blocks, false)
  }

  lemma NormalTail(blocks: seq<Block>, after: bool)
    requires blocks != [] && NormalFrom(blocks, after)
    ensures NormalFrom(blocks[1..], true)
  {
    forall i | 0 <= i < |blocks| - 1 ensures NormalAt(blocks[1..], i, true) {
      assert NormalAt(blocks, i + 1, after);
    }
  }

  lemma NormalCons(block: Block, rest: seq<Block>, after: bool)
    requires NormalFrom(rest, true)
    requires NormalAt([block] + rest, 0, after)
    ensures NormalFrom([block] + rest, after)
  {
    var blocks := [block] + rest;
    forall i | 0 <= i < |blocks| ensures NormalAt(blocks, i, after) {
      if i > 0 {
        assert NormalAt(rest, i - 1, true);
      }
    }
  }

  // ----- Parsing yields normal forms -----

  lemma StrippedSpec(run: seq<string>, after: bool, before: bool)
    requires !AllBlank(run)
    ensures var r := StripSeparators(run, after, before);
      && (forall line :: line in r ==> line in run)
      && !AllBlank(r) && r != []
  {
    var k :| 0 <= k < |run| && !Blank(run[k]);
    var a := if after && Blank(run[0]) then run[1..] else run;
    assert run[k] in a;
    var b := StripSeparators(run, after, before);
    assert a != [] && run[k] in b;
  }

  lemma TrimmedSpec(lines: seq<string>, after: bool, before: bool)
    requires !AllBlank(lines)
    ensures var r := TrimEdges(lines, after, before);
      && (forall line :: line in r ==> line in lines)
      && r != [] && !AllBlank(r)
      && (after || !Blank(r[0]))
      && (before || !Blank(r[|r| - 1]))
  {
    DropFrontSpec(lines);
    DropBackSpec(if !after then DropFront(lines) else lines);
  }

  lemma EmptyLinesSplit(n: nat)
    requires n > 0
    ensures Split(Join(seq(n, _ => ""))) == seq(n, _ => "")
  {
    SplitJoin(seq(n, _ => ""));
  }

  lemma KeptIsNormal(run: seq<string>, after: bool, before: bool)
    requires NoBoxes(run) && Unbroken(run) && !AllBlank(run)
    ensures var lines := TrimEdges(StripSeparators(run, after, before), after, before);
      lines != [] && Unbroken(lines) && NormalLines(lines, after, before)
  {
    StrippedSpec(run, after, before);
    TrimmedSpec(StripSeparators(run, after, before), after, before);
  }

  lemma FlushNormal(run: seq<string>, after: bool, before: bool)
    requires NoBoxes(run) && Unbroken(run)
    ensures |Flush(run, after, before)| <= 1
    ensures Flush(run, after, before) != [] ==>
              && Flush(run, after, before)[0].Text?
              && NormalLines(Split(Flush(run, after, before)[0].text), after, before)
  {
    if run == [] {
    } else if AllBlank(run) {
      EmptyLinesSplit(|run|);
    } else {
      hide StripSeparators, TrimEdges, NormalLines, AllBlank, NoBoxes;
      KeptIsNormal(run, after, before);
      SplitJoin(TrimEdges(StripSeparators(run, after, before), after, before));
    }
  }

  lemma NormalAround(flushed: seq<Block>, box: Block, rest: seq<Block>, after: bool)
    requires |flushed| <= 1
    requires flushed != [] ==> flushed[0].Text? && NormalLines(Split(flushed[0].text), after, true)
    requires box.Check? && SingleLine(box.text) && NormalFrom(rest, true)
    ensures NormalFrom(flushed + [box] + rest, after)
  {
    var tail := [box] + rest;
    if flushed == [] {
      NormalCons(box, rest, after);
      assert flushed + [box] + rest == tail;
    } else {
      NormalCons(box, rest, true);
      assert NormalAt([flushed[0]] + tail, 0, after);
      NormalCons(flushed[0], tail, after);
      assert flushed + [box] + rest == [flushed[0]] + tail;
    }
  }

  lemma {:induction false} ParseFromNormal(lines: seq<string>, run: seq<string>, after: bool)
    requires NoBoxes(run) && Unbroken(run) && Unbroken(lines)
    ensures NormalFrom(ParseFrom(lines, run, after), after)
  {
    if lines == [] {
      FlushNormal(run, after, false);
    } else if IsBox(lines[0]) {
      ParseFromNormal(lines[1..], [], true);
      FlushNormal(run, after, true);
      NormalAround(Flush(run, after, true), BoxOf(lines[0]), ParseFrom(lines[1..], [], true), after);
    } else {
      ParseFromNormal(lines[1..], run + [lines[0]], after);
    }
  }

  lemma ParsedIsNormal(body: string)
    ensures Normal(Parsed(body))
  {
    ParseFromNormal(Split(body), [], false);
  }

  // ----- Printing a normal form and parsing it again -----

  lemma {:induction false} ParseRun(lines: seq<string>, rest: seq<string>, run: seq<string>, after: bool)
    requires NoBoxes(lines)
    ensures ParseFrom(lines + rest, run, after) == ParseFrom(rest, run + lines, after)
  {
    hide IsBox, BoxOf, Flush;
    if lines == [] {
      assert lines + rest == rest && run + lines == run;
    } else {
      TailOfConcat(lines, rest);
      assert [lines[0]] + lines[1..] == lines;
      Associate(run, [lines[0]], lines[1..]);
      ParseRun(lines[1..], rest, run + [lines[0]], after);
    }
  }

  /** What surrounds the lines of a text block in print. */
  function Wrapped(lines: seq<string>, after: bool, before: bool): seq<string> {
    if AllBlank(lines) then lines
    else (if after then [""] else []) + lines + (if before then [""] else [])
  }

  lemma WrappedHasText(lines: seq<string>, after: bool, before: bool)
    requires !AllBlank(lines)
    ensures !AllBlank(Wrapped(lines, after, before))
  {
    var k :| 0 <= k < |lines| && !Blank(lines[k]);
    assert Wrapped(lines, after, before)[if after then k + 1 else k] == lines[k];
  }

  lemma FrontStrips(after: bool, tail: seq<string>)
    requires tail != []
    ensures var run := (if after then [""] else []) + tail;
      (if after && Blank(run[0]) then run[1..] else run) == tail
  {
    if after {
      TailOfConcat([""], tail);
    } else {
      assert [] + tail == tail;
    }
  }

  lemma BackStrips(before: bool, lines: seq<string>)
    requires lines != []
    ensures var tail := lines + (if before then [""] else []);
      (if before && Blank(tail[|tail| - 1]) then tail[..|tail| - 1] else tail) == lines
  {
    if before {
      InitOfSnoc(lines, "");
    } else {
      assert lines + [] == lines;
    }
  }

  lemma WrappedStrips(lines: seq<string>, after: bool, before: bool)
    requires !AllBlank(lines)
    ensures !AllBlank(Wrapped(lines, after, before))
    ensures StripSeparators(Wrapped(lines, after, before), after, before) == lines
  {
    assert lines != [];
    WrappedHasText(lines, after, before);
    hide AllBlank, Blank;
    Associate(if after then [""] else [], lines, if before then [""] else []);
    FrontStrips(after, lines + (if before then [""] else []));
    BackStrips(before, lines);
  }

  lemma FlushWrapped(lines: seq<string>, after: bool, before: bool)
    requires lines != [] && NormalLines(lines, after, before)
    ensures Flush(Wrapped(lines, after, before), after, before) == [Text(Join(lines))]
  {
    if AllBlank(lines) {
      assert forall i :: 0 <= i < |lines| ==> lines[i] in lines;
      assert lines == seq(|lines|, _ => "");
    } else {
      WrappedStrips(lines, after, before);
      assert TrimEdges(lines, after, before) == lines;
    }
  }

  lemma EmitCheck(blocks: seq<Block>, prev: Prev)
    requires blocks != [] && blocks[0].Check? && prev != Paragraph
    ensures EmitAll(blocks, prev) == [BoxLine(blocks[0].checked, blocks[0].text)] + EmitAll(blocks[1..], Box)
  {
    hide BoxLine;
    var line := [BoxLine(blocks[0].checked, blocks[0].text)];
    assert [] + line == line;
  }

  lemma ParseCheck(box: Block, lines: seq<string>, after: bool)
    requires box.Check? && SingleLine(box.text)
    ensures ParseFrom([BoxLine(box.checked, box.text)] + lines, [], after) == [box] + ParseFrom(lines, [], true)
  {
    BoxLineReadsBack(box.checked, box.text);
    hide IsBox, BoxOf, BoxLine;
    TailOfConcat([BoxLine(box.checked, box.text)], lines);
    assert [] + [box] == [box];
  }

  lemma {:induction false} ParseEmitted(blocks: seq<Block>, prev: Prev)
    requires prev != Paragraph && NormalFrom(blocks, prev == Box)
    ensures ParseFrom(EmitAll(blocks, prev), [], prev == Box) == blocks
    decreases |blocks|, 1
  {
    if blocks != [] {
      hide NormalLines, ParseFrom, EmitAll, SingleLine;
      NormalTail(blocks, prev == Box);
      assert NormalAt(blocks, 0, prev == Box);
      hide NormalFrom;
      if blocks[0].Check? {
        assert blocks == [blocks[0]] + blocks[1..];
        EmitCheck(blocks, prev);
        ParseEmitted(blocks[1..], Box);
        ParseCheck(blocks[0], EmitAll(blocks[1..], Box), prev == Box);
      } else {
        ParseEmittedText(blocks, prev);
      }
    }
  }

  lemma PrintedLast(text: string, prev: Prev)
    requires prev != Paragraph
    ensures Emit(Text(text), prev) == Wrapped(Split(text), prev == Box, false)
  {
  }

  lemma PrintedWithBox(text: string, prev: Prev, box: Block)
    requires prev != Paragraph && NormalLines(Split(text), prev == Box, true) && box.Check?
    ensures Emit(Text(text), prev) + Emit(box, After(Text(text), prev)) ==
            Wrapped(Split(text), prev == Box, true) + [BoxLine(box.checked, box.text)]
  {
    var lines, line := Split(text), BoxLine(box.checked, box.text);
    if !AllBlank(lines) {
      assert Emit(box, After(Text(text), prev)) == [""] + [line];
    }
  }

  lemma EmitOne(block: Block, prev: Prev)
    ensures EmitAll([block], prev) == Emit(block, prev)
  {
    assert [block][1..] == [] && Emit(block, prev) + [] == Emit(block, prev);
  }

  lemma EmitTwo(first: Block, second: Block, rest: seq<Block>, prev: Prev)
    requires second.Check?
    ensures EmitAll([first] + ([second] + rest), prev) ==
            Emit(first, prev) + Emit(second, After(first, prev)) + EmitAll(rest, Box)
  {
    var blocks := [second] + rest;
    assert ([first] + blocks)[1..] == blocks && blocks[1..] == rest;
  }

  /** A text block prints its lines, wrapped, and then what follows the next box. */
  lemma EmitText(blocks: seq<Block>, prev: Prev)
    requires blocks != [] && blocks[0].Text? && prev != Paragraph
    requires |blocks| > 1 ==> blocks[1].Check?
    requires NormalLines(Split(blocks[0].text), prev == Box, |blocks| > 1)
    ensures |blocks| == 1 ==>
              EmitAll(blocks, prev) == Wrapped(Split(blocks[0].text), prev == Box, false)
    ensures |blocks| > 1 ==>
              EmitAll(blocks, prev) == Wrapped(Split(blocks[0].text), prev == Box, true)
                + ([BoxLine(blocks[1].checked, blocks[1].text)] + EmitAll(blocks[2..], Box))
  {
    if |blocks| > 1 {
      var tail := EmitAll(blocks[2..], Box);
      var run, line := Wrapped(Split(blocks[0].text), prev == Box, true), BoxLine(blocks[1].checked, blocks[1].text);
      assert EmitAll(blocks, prev) == run + [line] + tail by {
        assert blocks == [blocks[0]] + ([blocks[1]] + blocks[2..]);
        EmitTwo(blocks[0], blocks[1], blocks[2..], prev);
        PrintedWithBox(blocks[0].text, prev, blocks[1]);
      }
      assert run + [line] + tail == run + ([line] + tail);
    } else {
      assert blocks == [blocks[0]];
      EmitOne(blocks[0], prev);
      PrintedLast(blocks[0].text, prev);
    }
  }

  lemma WrappedHasNoBoxes(lines: seq<string>, after: bool, before: bool)
    requires NoBoxes(lines)
    ensures NoBoxes(Wrapped(lines, after, before))
  {
  }

  lemma ParseAroundBox(run: seq<string>, after: bool, box: string, rest: seq<string>)
    requires NoBoxes(run) && IsBox(box)
    ensures ParseFrom(run + ([box] + rest), [], after) ==
            Flush(run, after, true) + [BoxOf(box)] + ParseFrom(rest, [], true)
  {
    var tail := [box] + rest;
    ParseRun(run, tail, [], after);
    assert [] + run == run && tail[1..] == rest && tail[0] == box;
  }

  lemma TextIsFlushed(text: string, after: bool, before: bool)
    requires NormalLines(Split(text), after, before)
    ensures NoBoxes(Wrapped(Split(text), after, before))
    ensures Flush(Wrapped(Split(text), after, before), after, before) == [Text(text)]
  {
    WrappedHasNoBoxes(Split(text), after, before);
    FlushWrapped(Split(text), after, before);
    JoinSplit(text);
  }

  lemma ParseLastText(text: string, after: bool)
    requires NormalLines(Split(text), after, false)
    ensures ParseFrom(Wrapped(Split(text), after, false), [], after) == [Text(text)]
  {
    var run := Wrapped(Split(text), after, false);
    TextIsFlushed(text, after, false);
    ParseRun(run, [], [], after);
    assert run + [] == run && [] + run == run;
  }

  lemma ParseTextAndBox(text: string, after: bool, box: Block, lines: seq<string>)
    requires NormalLines(Split(text), after, true)
    requires box.Check? && SingleLine(box.text)
    ensures ParseFrom(Wrapped(Split(text), after, true) + ([BoxLine(box.checked, box.text)] + lines), [], after) ==
            [Text(text)] + [box] + ParseFrom(lines, [], true)
  {
    TextIsFlushed(text, after, true);
    BoxLineReadsBack(box.checked, box.text);
    ParseAroundBox(Wrapped(Split(text), after, true), after, BoxLine(box.checked, box.text), lines);
  }

  lemma {:induction false} ParseEmittedText(blocks: seq<Block>, prev: Prev)
    requires prev != Paragraph && NormalFrom(blocks, prev == Box)
    requires blocks != [] && blocks[0].Text?
    ensures ParseFrom(EmitAll(blocks, prev), [], prev == Box) == blocks
    decreases |blocks|, 0
  {
    hide Wrapped, BoxLine, NormalLines, ParseFrom, EmitAll;
    assert NormalAt(blocks, 0, prev == Box);
    EmitText(blocks, prev);
    if |blocks| > 1 {
      assert NormalAt(blocks, 1, prev == Box);
      NormalTail(blocks, prev == Box);
      NormalTail(blocks[1..], true);
      assert blocks[1..][1..] == blocks[2..];
      ParseEmitted(blocks[2..], Box);
      ParseTextAndBox(blocks[0].text, prev == Box, blocks[1], EmitAll(blocks[2..], Box));
      assert blocks == [blocks[0]] + [blocks[1]] + blocks[2..];
    } else {
      ParseLastText(blocks[0].text, prev == Box);
      assert blocks == [blocks[0]];
    }
  }

  lemma DropNothing(lines: seq<string>)
    requires lines == [] || (!Blank(lines[0]) && !Blank(lines[|lines| - 1]))
    ensures DropBack(DropFront(lines)) == lines
  {
  }

  /** Lines with nothing to trim at the end, nor at the start unless a box stands before them. */
  predicate CleanEdges(lines: seq<string>, after: bool) {
    && lines != []
    && !Blank(lines[|lines| - 1])
    && (after || !Blank(lines[0]))
    && Unbroken(lines)
  }

  lemma WrappedEdges(lines: seq<string>, after: bool, before: bool)
    requires lines != [] && NormalLines(lines, after, before) && Unbroken(lines)
    ensures Wrapped(lines, after, before) != [] && Unbroken(Wrapped(lines, after, before))
    ensures after || !Blank(Wrapped(lines, after, before)[0])
    ensures before || CleanEdges(Wrapped(lines, after, before), after)
  {
  }

  lemma ConcatEdges(front: seq<string>, back: seq<string>, after: bool)
    requires front != [] && (after || !Blank(front[0])) && Unbroken(front)
    requires CleanEdges(back, true)
    ensures CleanEdges(front + back, after)
  {
    var lines := front + back;
    assert lines[|lines| - 1] == back[|back| - 1] && lines[0] == front[0];
  }

  lemma BoxEdges(box: Block, after: bool)
    requires box.Check? && SingleLine(box.text)
    ensures CleanEdges([BoxLine(box.checked, box.text)], after)
  {
    BoxLineReadsBack(box.checked, box.text);
  }

  lemma {:induction false} BoxFirstEdges(box: Block, rest: seq<Block>, after: bool)
    requires box.Check? && SingleLine(box.text) && NormalFrom(rest, true)
    ensures CleanEdges([BoxLine(box.checked, box.text)] + EmitAll(rest, Box), after)
    decreases |rest|, 1
  {
    BoxEdges(box, after);
    if rest == [] {
      assert [BoxLine(box.checked, box.text)] + [] == [BoxLine(box.checked, box.text)];
    } else {
      EmittedEdges(rest, Box);
      ConcatEdges([BoxLine(box.checked, box.text)], EmitAll(rest, Box), after);
    }
  }

  /** A normal form is printed with nothing to trim. */
  lemma {:induction false} EmittedEdges(blocks: seq<Block>, prev: Prev)
    requires prev != Paragraph && NormalFrom(blocks, prev == Box) && blocks != []
    ensures CleanEdges(EmitAll(blocks, prev), prev == Box)
    decreases |blocks|, 0
  {
    assert NormalAt(blocks, 0, prev == Box);
    NormalTail(blocks, prev == Box);
    if blocks[0].Text? {
      var lines := Split(blocks[0].text);
      WrappedEdges(lines, prev == Box, |blocks| > 1);
      EmitText(blocks, prev);
      if |blocks| > 1 {
        assert NormalAt(blocks, 1, prev == Box);
        NormalTail(blocks[1..], true);
        assert blocks[1..][1..] == blocks[2..];
        BoxFirstEdges(blocks[1], blocks[2..], true);
        ConcatEdges(Wrapped(lines, prev == Box, true),
          [BoxLine(blocks[1].checked, blocks[1].text)] + EmitAll(blocks[2..], Box), prev == Box);
      }
    } else {
      BoxFirstEdges(blocks[0], blocks[1..], prev == Box);
    }
  }

  /** Saving a normal form and reopening it gives the same blocks. */
  lemma SerializedParsesBack(blocks: seq<Block>)
    requires Normal(blocks)
    ensures Parsed(Serialized(blocks)) == blocks
  {
    var lines := EmitAll(blocks, Nothing);
    if blocks == [] {
      assert Split("") == [""] && AllBlank([""]);
      assert [] + [""] == [""];
      assert !IsBox("");
      assert [""][1..] == [];
      assert ParseFrom([""], [], false) == ParseFrom([], [""], false);
    } else {
      EmittedEdges(blocks, Nothing);
      DropNothing(lines);
      SplitJoin(lines);
      ParseEmitted(blocks, Nothing);
    }
  }

  /** What is typed comes back as typed exactly when it is in normal form. */
  lemma TypedListsSurviveExactly(blocks: seq<Block>)
    ensures Parsed(Serialized(blocks)) == blocks <==> Normal(blocks)
  {
    ParsedIsNormal(Serialized(blocks));
    if Normal(blocks) {
      SerializedParsesBack(blocks);
    }
  }

  /** Reopening and saving changes neither the blocks nor, the second time, the body. */
  lemma ReopenSaveIsIdempotent(body: string)
    ensures Parsed(Serialized(Parsed(body))) == Parsed(body)
    ensures Serialized(Parsed(Serialized(Parsed(body)))) == Serialized(Parsed(body))
  {
    ParsedIsNormal(body);
    SerializedParsesBack(Parsed(body));
  }
}
