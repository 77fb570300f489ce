/** Blocks to Markdown and back: web/src/lib/markdown.ts. */
module Markdown {
  import opened Text

  datatype Block = Text(text: string) | Check(checked: bool, text: string)

  /** The last structural block printed; blank-only text does not count. */
  datatype Prev = Nothing | Paragraph | Box

  function BoxLine(checked: bool, text: string): string {
    (if checked then "- [x] " else "- [ ] ") + text
  }

  /** What the optional space and the rest of the line leave as the label. */
  function BoxLabel(line: string): string
    requires |line| >= 5
  {
    if |line| > 5 && IsSpace(line[5]) then line[6..] else line[5..]
  }

  /** `CHECKBOX_LINE`: the task-list marker in one fixed shape. */
  predicate IsBox(line: string) {
    && |line| >= 5
    && line[0] == '-' && IsSpace(line[1]) && line[2] == '['
    && (line[3] == ' ' || line[3] == 'x' || line[3] == 'X')
    && line[4] == ']'
    && SingleLine(BoxLabel(line))
  }

  function BoxOf(line: string): Block
    requires IsBox(line)
  {
    Check(line[3] != ' ', BoxLabel(line))
  }

  predicate NoBoxes(lines: seq<string>) {
    forall line :: line in lines ==> !IsBox(line)
  }

  lemma BoxLineReadsBack(checked: bool, text: string)
    requires SingleLine(text)
    ensures IsBox(BoxLine(checked, text))
    ensures BoxOf(BoxLine(checked, text)) == Check(checked, text)
    ensures !Blank(BoxLine(checked, text)) && NoNewline(BoxLine(checked, text))
  {
    var line := BoxLine(checked, text);
    assert line[6..] == text;
    assert line[0] == '-';
  }

  // ----- Printing -----

  /** The lines one block adds after `prev`. */
  function Emit(block: Block, prev: Prev): seq<string> {
    match block
    case Check(checked, text) =>
      (if prev == Paragraph then [""] else []) + [BoxLine(checked, text)]
    case Text(text) =>
      (if AllBlank(Split(text)) || prev == Nothing then [] else [""]) + Split(text)
  }

  function After(block: Block, prev: Prev): Prev {
    match block
    case Check(_, _) => Box
    case Text(text) => if AllBlank(Split(text)) then prev else Paragraph
  }

  function EmitAll(blocks: seq<Block>, prev: Prev): seq<string> {
    if blocks == [] then []
    else Emit(blocks[0], prev) + EmitAll(blocks[1..], After(blocks[0], prev))
  }

  function Serialized(blocks: seq<Block>): string {
    Join(DropBack(DropFront(EmitAll(blocks, Nothing))))
  }

  lemma EmitStep(lines: seq<string>, blocks: seq<Block>, i: nat, prev: Prev)
    requires i < |blocks|
    ensures lines + EmitAll(blocks[i..], prev) ==
            lines + Emit(blocks[i], prev) + EmitAll(blocks[i + 1..], After(blocks[i], prev))
  {
    assert blocks[i..][1..] == blocks[i + 1..];
  }

  lemma EmitCheckStep(lines: seq<string>, checked: bool, text: string, prev: Prev)
    ensures (if prev == Paragraph then lines + [""] else lines) + [BoxLine(checked, text)] ==
            lines + Emit(Check(checked, text), prev)
  {
  }

  lemma EmitTextStep(lines: seq<string>, text: string, prev: Prev)
    ensures (if AllBlank(Split(text)) || prev == Nothing then lines else lines + [""]) + Split(text) ==
            lines + Emit(Text(text), prev)
  {
    hide AllBlank, Split;
  }

  lemma EmitNothing(lines: seq<string>, blocks: seq<Block>, prev: Prev)
    ensures lines + EmitAll(blocks[|blocks|..], prev) == lines
  {
  }

  method Serialize(blocks: seq<Block>) returns (body: string)
    ensures body == Serialized(blocks)
  {
    hide EmitAll, Emit, AllBlank, Split, BoxLine;
    var lines: seq<string> := [];
    var prev := Nothing;
    assert blocks[0..] == blocks && lines + EmitAll(blocks, prev) == EmitAll(blocks, prev);
    for i := 0 to |blocks|
      invariant lines + EmitAll(blocks[i..], prev) == EmitAll(blocks, Nothing)
    {
      var block := blocks[i];
      EmitStep(lines, blocks, i, prev);
      if block.Check? {
        EmitCheckStep(lines, block.checked, block.text, prev);
        if prev == Paragraph {
          lines := lines + [""];
        }
        lines := lines + [BoxLine(block.checked, block.text)];
        prev := Box;
      } else {
        var blockLines := Split(block.text);
        EmitTextStep(lines, block.text, prev);
        if AllBlank(blockLines) {
          lines := lines + blockLines;
        } else {
          if prev != Nothing {
            lines := lines + [""];
          }
          lines := lines + blockLines;
          prev := Paragraph;
        }
      }
    }
    EmitNothing(lines, blocks, prev);
    lines := TrimFront(lines);
    lines := TrimBack(lines);
    body := Join(lines);
  }

  // ----- Parsing -----

  /** Drops one blank line next to each neighbouring box. */
  function StripSeparators(run: seq<string>, afterCheck: bool, beforeCheck: bool): seq<string>
    requires !AllBlank(run)
  {
    var lines := if afterCheck && Blank(run[0]) then run[1..] else run;
    if beforeCheck && Blank(lines[|lines| - 1]) then lines[..|lines| - 1] else lines
  }

  /** Drops all blank lines at the edges of the body. */
  function TrimEdges(lines: seq<string>, afterCheck: bool, beforeCheck: bool): seq<string> {
    var fronted := if !afterCheck then DropFront(lines) else lines;
    if !beforeCheck then DropBack(fronted) else fronted
  }

  /** The text block, if any, that a run of lines between boxes becomes. */
  function Flush(run: seq<string>, afterCheck: bool, beforeCheck: bool): seq<Block> {
    if run == [] then []
    else if AllBlank(run) then
      if afterCheck && beforeCheck then [Text(Join(seq(|run|, _ => "")))] else []
    else [Text(Join(TrimEdges(StripSeparators(run, afterCheck, beforeCheck), afterCheck, beforeCheck)))]
  }

  /** Blocks of `lines`, when `run` is pending and a box was seen iff `afterCheck`. */
  function ParseFrom(lines: seq<string>, run: seq<string>, afterCheck: bool): seq<Block> {
    if lines == [] then Flush(run, afterCheck, false)
    else if IsBox(lines[0]) then
      Flush(run, afterCheck, true) + [BoxOf(lines[0])] + ParseFrom(lines[1..], [], true)
    else ParseFrom(lines[1..], run + [lines[0]], afterCheck)
  }

  function Parsed(body: string): seq<Block> {
    ParseFrom(Split(body), [], false)
  }

  predicate EndsInCheck(blocks: seq<Block>) {
    blocks != [] && blocks[|blocks| - 1].Check?
  }

  method FlushRun(blocks: seq<Block>, run: seq<string>, beforeCheck: bool) returns (r: seq<Block>)
    ensures r == blocks + Flush(run, EndsInCheck(blocks), beforeCheck)
  {
    if |run| == 0 {
      return blocks;
    }
    var afterCheck := EndsInCheck(blocks);
    var lines := run;
    if AllBlank(lines) {
      if afterCheck && beforeCheck {
        return blocks + [Text(Join(seq(|lines|, _ => "")))];
      }
      return blocks;
    }
    if afterCheck && Blank(lines[0]) {
      lines := lines[1..];
    }
    if beforeCheck && Blank(lines[|lines| - 1]) {
      lines := lines[..|lines| - 1];
    }
    if !afterCheck {
      lines := TrimFront(lines);
    }
    if !beforeCheck {
      lines := TrimBack(lines);
    }
    return blocks + [Text(Join(lines))];
  }

  lemma ParseStep(blocks: seq<Block>, lines: seq<string>, i: nat, run: seq<string>, afterCheck: bool)
    requires i < |lines|
    ensures blocks + ParseFrom(lines[i..], run, afterCheck) ==
            if IsBox(lines[i]) then
              blocks + Flush(run, afterCheck, true) + [BoxOf(lines[i])] + ParseFrom(lines[i + 1..], [], true)
            else blocks + ParseFrom(lines[i + 1..], run + [lines[i]], afterCheck)
  {
    hide IsBox, BoxOf, Flush;
    assert lines[i..][1..] == lines[i + 1..];
  }

  lemma ParseEnd(lines: seq<string>, run: seq<string>, afterCheck: bool)
    ensures ParseFrom(lines[|lines|..], run, afterCheck) == Flush(run, afterCheck, false)
  {
  }

  method Parse(body: string) returns (blocks: seq<Block>)
    ensures blocks == Parsed(body)
  {
    hide ParseFrom, Flush, IsBox, Split;
    blocks := [];
    var run: seq<string> := [];
    var lines := Split(body);
    assert lines[0..] == lines && blocks + Parsed(body) == Parsed(body);
    for i := 0 to |lines|
      invariant blocks == [] || EndsInCheck(blocks)
      invariant blocks + ParseFrom(lines[i..], run, EndsInCheck(blocks)) == Parsed(body)
    {
      ParseStep(blocks, lines, i, run, EndsInCheck(blocks));
      if IsBox(lines[i]) {
        blocks := FlushRun(blocks, run, true);
        run := [];
        blocks := blocks + [BoxOf(lines[i])];
      } else {
        run := run + [lines[i]];
      }
    }
    ParseEnd(lines, run, EndsInCheck(blocks));
    blocks := FlushRun(blocks, run, false);
  }
}
