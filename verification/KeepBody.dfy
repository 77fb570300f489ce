/** The body of an imported Keep note: api/app/services/keep_import.py. */
module KeepBody {
  import opened Wrappers
  import opened Text
  import opened Markdown
  import RoundTrip

  datatype KeepItem = KeepItem(text: Option<string>, isChecked: bool) | NotAnObject

  /** The two fields of a Takeout note that make its body; `None` when not of the expected type. */
  datatype KeepNote = KeepNote(textContent: Option<string>, listContent: Option<seq<KeepItem>>)

  /** The characters that `str.strip` removes in Python. */
  predicate IsPySpace(c: char) {
    || '\t' <= c <= '\r' || '\U{001C}' <= c <= ' ' || c == '\U{0085}' || c == '\U{00A0}'
    || c == '\U{1680}' || '\U{2000}' <= c <= '\U{200A}' || c == '\U{2028}' || c == '\U{2029}'
    || c == '\U{202F}' || c == '\U{205F}' || c == '\U{3000}'
  }

  /** `line.strip() == ""` */
  predicate PyBlank(line: string) {
    forall i :: 0 <= i < |line| ==> IsPySpace(line[i])
  }

  // ----- Line ends -----

  /** `text.replace("\r\n", "\n")` */
  function ReplaceCrLf(s: string): string {
    if s == "" then ""
    else if |s| >= 2 && s[0] == '\r' && s[1] == '\n' then "\n" + ReplaceCrLf(s[2..])
    else [s[0]] + ReplaceCrLf(s[1..])
  }

  /** `text.replace("\r", "\n")` */
  function ReplaceCr(s: string): string {
    if s == "" then "" else [if s[0] == '\r' then '\n' else s[0]] + ReplaceCr(s[1..])
  }

  // ----- Paragraphs -----

  function ParagraphOf(paragraph: seq<string>): seq<Block> {
    if paragraph == [] then [] else [Text(Join(paragraph))]
  }

  function Paragraphs(lines: seq<string>, paragraph: seq<string>): seq<Block> {
    if lines == [] then ParagraphOf(paragraph)
    else if PyBlank(lines[0]) then ParagraphOf(paragraph) + Paragraphs(lines[1..], [])
    else Paragraphs(lines[1..], paragraph + [lines[0]])
  }

  method TextBlocks(textContent: string) returns (blocks: seq<Block>)
    ensures blocks == Paragraphs(Split(textContent), [])
  {
    blocks := [];
    var paragraph: seq<string> := [];
    var lines := Split(textContent);
    for i := 0 to |lines|
      invariant blocks + Paragraphs(lines[i..], paragraph) == Paragraphs(lines, [])
    {
      assert lines[i..][1..] == lines[i + 1..];
      if PyBlank(lines[i]) {
        if |paragraph| > 0 {
          blocks := blocks + [Text(Join(paragraph))];
          paragraph := [];
        }
      } else {
        paragraph := paragraph + [lines[i]];
      }
    }
    assert lines[|lines|..] == [];
    if |paragraph| > 0 {
      blocks := blocks + [Text(Join(paragraph))];
    }
  }

  function ItemBlocks(items: seq<KeepItem>): seq<Block> {
    if items == [] then []
    else
      (match items[0]
       case NotAnObject => []
       case KeepItem(text, isChecked) => [Check(isChecked, if text.Some? then text.value else "")])
      + ItemBlocks(items[1..])
  }

  /** The blocks of a note, as the editor would hold them. */
  function NoteBlocks(raw: KeepNote): seq<Block> {
    (if raw.textContent.Some?
     then Paragraphs(Split(ReplaceCr(ReplaceCrLf(raw.textContent.value))), []) else [])
    + (if raw.listContent.Some? then ItemBlocks(raw.listContent.value) else [])
  }

  // ----- Printing -----

  /** What one round of the printing loop appends: one list element per block, separators apart. */
  function KeepStep(block: Block, first: bool, prevCheck: bool): seq<string> {
    match block
    case Check(checked, text) => (if !first && !prevCheck then [""] else []) + [BoxLine(checked, text)]
    case Text(text) => (if !first then [""] else []) + [text]
  }

  /** `first` at index 0. */
  function KeepLines(blocks: seq<Block>, first: bool, prevCheck: bool): seq<string> {
    if blocks == [] then []
    else KeepStep(blocks[0], first, prevCheck) + KeepLines(blocks[1..], false, blocks[0].Check?)
  }

  predicate TripleAt(s: string, i: nat)
    requires i + 3 <= |s|
  {
    s[i] == '\n' && s[i + 1] == '\n' && s[i + 2] == '\n'
  }

  predicate HasTriple(s: string) {
    exists i :: 0 <= i <= |s| - 3 && TripleAt(s, i)
  }

  /** `out.replace("\n\n\n", "\n\n")`: one pass, left to right. */
  function ReplaceTriples(s: string): string {
    if s == "" then ""
    else if |s| >= 3 && TripleAt(s, 0) then "\n\n" + ReplaceTriples(s[3..])
    else [s[0]] + ReplaceTriples(s[1..])
  }

  lemma {:induction false} ReplaceTriplesShrinks(s: string)
    ensures |ReplaceTriples(s)| <= |s|
    ensures HasTriple(s) ==> |ReplaceTriples(s)| < |s|
    ensures !HasTriple(s) ==> ReplaceTriples(s) == s
  {
    if s == "" {
    } else if |s| >= 3 && TripleAt(s, 0) {
      ReplaceTriplesShrinks(s[3..]);
    } else {
      ReplaceTriplesShrinks(s[1..]);
      if HasTriple(s) {
        var i :| 0 <= i <= |s| - 3 && TripleAt(s, i);
        assert TripleAt(s[1..], i - 1);
      } else if HasTriple(s[1..]) {
        var i :| 0 <= i <= |s[1..]| - 3 && TripleAt(s[1..], i);
        assert TripleAt(s, i + 1);
      }
    }
  }

  function Collapsed(s: string): string
    decreases |s|
  {
    if HasTriple(s) then ReplaceTriplesShrinks(s); Collapsed(ReplaceTriples(s)) else s
  }

  /** The collapsing loop ends, with no three line feeds in a row left. */
  method Collapse(s: string) returns (out: string)
    ensures out == Collapsed(s)
    ensures !HasTriple(out)
  {
    out := s;
    while HasTriple(out)
      invariant Collapsed(out) == Collapsed(s)
      decreases |out|
    {
      ReplaceTriplesShrinks(out);
      out := ReplaceTriples(out);
    }
  }

  /** `out.strip("\n")` */
  function StripNewlines(s: string): string {
    if s != "" && s[0] == '\n' then StripNewlines(s[1..])
    else if s != "" && s[|s| - 1] == '\n' then StripNewlines(s[..|s| - 1])
    else s
  }

  function KeepSerialized(blocks: seq<Block>): string {
    StripNewlines(Collapsed(Join(KeepLines(blocks, true, false))))
  }

  lemma KeepLinesStep(lines: seq<string>, blocks: seq<Block>, i: nat, prevCheck: bool)
    requires i < |blocks|
    ensures lines + KeepLines(blocks[i..], i == 0, prevCheck) ==
            lines + KeepStep(blocks[i], i == 0, prevCheck) + KeepLines(blocks[i + 1..], false, blocks[i].Check?)
  {
    assert blocks[i..][1..] == blocks[i + 1..];
  }

  method SerializeBlocks(blocks: seq<Block>) returns (out: string)
    ensures out == KeepSerialized(blocks)
  {
    var lines: seq<string> := [];
    var prevCheck := false;
    for i := 0 to |blocks|
      invariant lines + KeepLines(blocks[i..], i == 0, prevCheck) == KeepLines(blocks, true, false)
    {
      ghost var before, was := lines, prevCheck;
      KeepLinesStep(lines, blocks, i, prevCheck);
      if blocks[i].Check? {
        if i > 0 && !prevCheck {
          lines := lines + [""];
        }
        lines := lines + [BoxLine(blocks[i].checked, blocks[i].text)];
        prevCheck := true;
        assert lines == before + KeepStep(blocks[i], i == 0, was);
      } else {
        if i > 0 {
          lines := lines + [""];
        }
        lines := lines + [blocks[i].text];
        prevCheck := false;
        assert lines == before + KeepStep(blocks[i], i == 0, was);
      }
    }
    assert blocks[|blocks|..] == [] && lines + [] == lines;
    out := Join(lines);
    out := Collapse(out);
    out := StripNewlines(out);
  }

  lemma ItemBlocksStep(blocks: seq<Block>, items: seq<KeepItem>, i: nat)
    requires i < |items|
    ensures blocks + ItemBlocks(items[i..]) ==
            (match items[i]
             case NotAnObject => blocks
             case KeepItem(text, isChecked) => blocks + [Check(isChecked, if text.Some? then text.value else "")])
            + ItemBlocks(items[i + 1..])
  {
    assert items[i..][1..] == items[i + 1..];
  }

  method BuildBody(raw: KeepNote) returns (body: string)
    ensures body == KeepSerialized(NoteBlocks(raw))
  {
    var blocks: seq<Block> := [];
    if raw.textContent.Some? {
      blocks := TextBlocks(ReplaceCr(ReplaceCrLf(raw.textContent.value)));
    }
    ghost var paragraphs := blocks;
    if raw.listContent.Some? {
      var items := raw.listContent.value;
      for i := 0 to |items|
        invariant blocks + ItemBlocks(items[i..]) == paragraphs + ItemBlocks(items)
      {
        ItemBlocksStep(blocks, items, i);
        if items[i].KeepItem? {
          var text := items[i].text;
          blocks := blocks + [Check(items[i].isChecked, if text.Some? then text.value else "")];
        }
      }
      assert items[|items|..] == [] && blocks + [] == blocks;
    } else {
      assert blocks + [] == blocks;
    }
    assert blocks == NoteBlocks(raw);
    body := SerializeBlocks(blocks);
  }

  // ----- The importer's body, line by line -----

  /** The same with the lines of a paragraph one by one. */
  function FirstRows(block: Block, first: bool, prevCheck: bool): seq<string> {
    match block
    case Check(_, _) => KeepStep(block, first, prevCheck)
    case Text(text) => (if !first then [""] else []) + Split(text)
  }

  function Rows(blocks: seq<Block>, first: bool, prevCheck: bool): seq<string> {
    if blocks == [] then []
    else FirstRows(blocks[0], first, prevCheck) + Rows(blocks[1..], false, blocks[0].Check?)
  }

  lemma {:induction false} JoinNested(lines: seq<string>, rest: seq<string>)
    requires lines != []
    ensures Join(lines + rest) == Join([Join(lines)] + rest)
  {
    if |lines| == 1 {
      assert [Join(lines)] == lines;
    } else {
      JoinNested(lines[1..], rest);
      assert (lines + rest)[1..] == lines[1..] + rest;
      if rest != [] {
        assert ([Join(lines)] + rest)[1..] == rest && ([Join(lines[1..])] + rest)[1..] == rest;
      } else {
        assert lines + rest == lines && [Join(lines)] + rest == [Join(lines)];
        assert lines[1..] + rest == lines[1..];
      }
    }
  }

  lemma {:induction false} JoinTails(head: seq<string>, a: seq<string>, b: seq<string>)
    requires Join(a) == Join(b) && (a == [] <==> b == [])
    ensures Join(head + a) == Join(head + b)
  {
    if head == [] {
      assert head + a == a && head + b == b;
    } else if a == [] {
    } else {
      JoinTails(head[1..], a, b);
      assert (head + a)[1..] == head[1..] + a && (head + b)[1..] == head[1..] + b;
    }
  }

  lemma JoinText(sep: seq<string>, text: string, keep: seq<string>, rows: seq<string>)
    requires Join(keep) == Join(rows) && (keep == [] <==> rows == [])
    ensures Join(sep + [text] + keep) == Join(sep + Split(text) + rows)
  {
    var lines := Split(text);
    var a, b, c := [text] + keep, [text] + rows, lines + rows;
    assert Join(a) == Join(b) by { JoinTails([text], keep, rows); }
    assert Join(b) == Join(c) by { JoinSplit(text); JoinNested(lines, rows); }
    JoinTails(sep, a, c);
    assert sep + [text] + keep == sep + a && sep + lines + rows == sep + c;
  }

  lemma {:induction false} RowsJoin(blocks: seq<Block>, first: bool, prevCheck: bool)
    ensures Join(KeepLines(blocks, first, prevCheck)) == Join(Rows(blocks, first, prevCheck))
    ensures KeepLines(blocks, first, prevCheck) == [] <==> Rows(blocks, first, prevCheck) == []
  {
    if blocks != [] {
      var block, rest := blocks[0], blocks[1..];
      RowsJoin(rest, false, block.Check?);
      var keep, rows := KeepLines(rest, false, block.Check?), Rows(rest, false, block.Check?);
      if block.Check? {
        JoinTails(KeepStep(block, first, prevCheck), keep, rows);
      } else {
        JoinText(if !first then [""] else [], block.text, keep, rows);
      }
    }
  }

  /** No line feed in a label, and no empty line inside a paragraph. */
  predicate Filled(block: Block) {
    match block
    case Check(_, text) => NoNewline(text)
    case Text(text) => forall line :: line in Split(text) ==> line != ""
  }

  predicate AllFilled(blocks: seq<Block>) {
    forall block :: block in blocks ==> Filled(block)
  }

  /** No two empty lines in a row, and something in the last line. */
  predicate Spaced(lines: seq<string>) {
    && (forall i :: 0 <= i < |lines| - 1 ==> lines[i] != "" || lines[i + 1] != "")
    && (lines != [] ==> lines[|lines| - 1] != "")
  }

  lemma {:induction false} SpacedHasNoTriple(lines: seq<string>)
    requires Unbroken(lines) && Spaced(lines)
    ensures !HasTriple(Join(lines))
    ensures var s := Join(lines);
      && (lines != [] ==> s != "" && s[|s| - 1] != '\n')
      && (lines != [] && lines[0] != "" ==> s[0] != '\n')
      && (|lines| > 1 && s[0] == '\n' ==> s[1] != '\n')
  {
    var s := Join(lines);
    if |lines| == 1 {
      assert lines[0] in lines;
    } else if |lines| > 1 {
      var rest := Join(lines[1..]);
      assert lines[0] in lines;
      SpacedHasNoTriple(lines[1..]);
      assert s[|s| - 1] == rest[|rest| - 1];
      var n := |lines[0]| + 1;
      forall i | 0 <= i <= |s| - 3 ensures !TripleAt(s, i) {
        if i >= n {
          assert !TripleAt(rest, i - n);
          assert s[i] == rest[i - n] && s[i + 1] == rest[i - n + 1] && s[i + 2] == rest[i - n + 2];
        } else if i < n - 1 {
          assert s[i] == lines[0][i];
        } else {
          assert s[i + 1] == rest[0];
          assert |rest| > 1 ==> s[i + 2] == rest[1];
        }
      }
    }
  }

  lemma SpacedConcat(a: seq<string>, b: seq<string>)
    requires Spaced(a) && Spaced(b)
    ensures Spaced(a + b)
  {
    var c := a + b;
    forall i | 0 <= i < |c| - 1 ensures c[i] != "" || c[i + 1] != "" {
      if i + 1 == |a| {
        assert c[i] == a[|a| - 1];
      }
    }
  }

  lemma SpacedLines(sep: bool, lines: seq<string>)
    requires lines != [] && Unbroken(lines)
    requires forall line :: line in lines ==> line != ""
    ensures Spaced((if sep then [""] else []) + lines) && Unbroken((if sep then [""] else []) + lines)
  {
    var c := (if sep then [""] else []) + lines;
    assert forall i :: 0 <= i < |lines| ==> lines[i] in lines;
    assert forall i :: (if sep then 1 else 0) <= i < |c| ==> c[i] in lines;
    assert c[|c| - 1] == lines[|lines| - 1];
  }

  lemma BoxLineUnbroken(checked: bool, text: string)
    requires NoNewline(text)
    ensures NoNewline(BoxLine(checked, text)) && BoxLine(checked, text) != ""
  {
  }

  lemma FirstRowsAreSpaced(block: Block, first: bool, prevCheck: bool)
    requires Filled(block)
    ensures var rows := FirstRows(block, first, prevCheck);
      Spaced(rows) && Unbroken(rows) && rows != [] && (first ==> rows[0] != "")
  {
    match block
    case Check(checked, text) =>
      BoxLineUnbroken(checked, text);
      SpacedLines(!first && !prevCheck, [BoxLine(checked, text)]);
    case Text(text) =>
      SpacedLines(!first, Split(text));
      assert Split(text)[0] in Split(text);
  }

  lemma {:induction false} RowsAreSpaced(blocks: seq<Block>, first: bool, prevCheck: bool)
    requires AllFilled(blocks)
    ensures Spaced(Rows(blocks, first, prevCheck)) && Unbroken(Rows(blocks, first, prevCheck))
    ensures first && blocks != [] ==>
              Rows(blocks, first, prevCheck) != [] && Rows(blocks, first, prevCheck)[0] != ""
  {
    if blocks != [] {
      var block, rest := blocks[0], blocks[1..];
      assert Filled(block) && forall b :: b in rest ==> b in blocks;
      RowsAreSpaced(rest, false, block.Check?);
      FirstRowsAreSpaced(block, first, prevCheck);
      SpacedConcat(FirstRows(block, first, prevCheck), Rows(rest, false, block.Check?));
    }
  }

  /** Neither collapsing nor stripping changes what a note's blocks print. */
  lemma KeepSerializedRows(blocks: seq<Block>)
    requires AllFilled(blocks)
    ensures KeepSerialized(blocks) == Join(Rows(blocks, true, false))
    ensures Unbroken(Rows(blocks, true, false))
    ensures blocks != [] ==> KeepSerialized(blocks) != "" && Split(KeepSerialized(blocks)) == Rows(blocks, true, false)
  {
    RowsJoin(blocks, true, false);
    RowsAreSpaced(blocks, true, false);
    SpacedHasNoTriple(Rows(blocks, true, false));
    if blocks != [] {
      SplitJoin(Rows(blocks, true, false));
    }
  }

  // ----- The two printers agree -----

  /** A box, or text the editor does not take for blank. */
  predicate HasWords(block: Block) {
    match block
    case Check(_, _) => true
    case Text(text) => !AllBlank(Split(text))
  }

  predicate AllHaveWords(blocks: seq<Block>) {
    forall block :: block in blocks ==> HasWords(block)
  }

  function FirstLine(block: Block): string {
    match block
    case Check(checked, text) => BoxLine(checked, text)
    case Text(text) => Split(text)[0]
  }

  function LastLine(block: Block): string {
    match block
    case Check(checked, text) => BoxLine(checked, text)
    case Text(text) => Split(text)[|Split(text)| - 1]
  }

  /** The body does not begin or end with a line the editor takes for blank. */
  predicate CleanEnds(blocks: seq<Block>) {
    blocks != [] ==> !Blank(FirstLine(blocks[0])) && !Blank(LastLine(blocks[|blocks| - 1]))
  }

  lemma {:induction false} RowsAgree(blocks: seq<Block>, prev: Prev)
    requires AllHaveWords(blocks)
    ensures Rows(blocks, prev == Nothing, prev == Box) == EmitAll(blocks, prev)
  {
    if blocks != [] {
      assert HasWords(blocks[0]) && forall b :: b in blocks[1..] ==> b in blocks;
      RowsAgree(blocks[1..], if blocks[0].Check? then Box else Paragraph);
    }
  }

  /** The importer never prints fewer lines, and prints more when a later paragraph is blank. */
  lemma {:induction false} RowsAreMore(blocks: seq<Block>, first: bool, prevCheck: bool, prev: Prev)
    requires first ==> prev == Nothing
    requires prevCheck ==> prev == Box
    ensures |Rows(blocks, first, prevCheck)| >= |EmitAll(blocks, prev)|
    ensures |Rows(blocks, first, prevCheck)| == |EmitAll(blocks, prev)| ==>
              AllHaveWords(if first && blocks != [] then blocks[1..] else blocks)
  {
    if blocks != [] {
      assert forall b :: b in blocks ==> b == blocks[0] || b in blocks[1..];
      RowsAreMore(blocks[1..], false, blocks[0].Check?, After(blocks[0], prev));
    }
  }

  lemma FirstRowsEnd(block: Block, first: bool, prevCheck: bool)
    ensures var rows := FirstRows(block, first, prevCheck);
      && rows != []
      && (first ==> rows[0] == FirstLine(block))
      && rows[|rows| - 1] == LastLine(block)
  {
    var rows := FirstRows(block, first, prevCheck);
    match block
    case Check(checked, text) =>
      assert rows[|rows| - 1] == BoxLine(checked, text);
    case Text(text) =>
      var lines := Split(text);
      assert rows[|rows| - 1] == lines[|lines| - 1];
  }

  lemma {:induction false} RowsEnd(blocks: seq<Block>, first: bool, prevCheck: bool)
    requires blocks != []
    ensures Rows(blocks, first, prevCheck) != []
    ensures var rows := Rows(blocks, first, prevCheck);
      && (first ==> rows[0] == FirstLine(blocks[0]))
      && rows[|rows| - 1] == LastLine(blocks[|blocks| - 1])
  {
    var block := blocks[0];
    var head, tail := FirstRows(block, first, prevCheck), Rows(blocks[1..], false, block.Check?);
    FirstRowsEnd(block, first, prevCheck);
    if |blocks| > 1 {
      RowsEnd(blocks[1..], false, block.Check?);
    } else {
      assert blocks[1..] == [] && head + tail == head;
    }
  }

  lemma {:induction false} DropsShorten(lines: seq<string>)
    ensures |DropFront(lines)| <= |lines| && |DropBack(lines)| <= |lines|
    ensures lines != [] && Blank(lines[0]) ==> |DropFront(lines)| < |lines|
  {
    if lines != [] {
      DropsShorten(lines[1..]);
      DropsShorten(lines[..|lines| - 1]);
    }
  }

  lemma TrimmedEnds(lines: seq<string>)
    requires lines != [] && DropBack(DropFront(lines)) == lines
    ensures !Blank(lines[0]) && !Blank(lines[|lines| - 1])
  {
    DropsShorten(lines);
    DropsShorten(DropFront(lines));
    DropFrontSpec(lines);
    DropBackSpec(DropFront(lines));
  }

  lemma TrimmedUnbroken(lines: seq<string>)
    requires Unbroken(lines)
    ensures Unbroken(DropBack(DropFront(lines)))
  {
    DropFrontSpec(lines);
    DropBackSpec(DropFront(lines));
  }

  /** Equal bodies come from equal lines. */
  lemma EqualBodiesHaveEqualRows(blocks: seq<Block>)
    requires AllFilled(blocks) && KeepSerialized(blocks) == Serialized(blocks) && blocks != []
    ensures DropBack(DropFront(EmitAll(blocks, Nothing))) == Rows(blocks, true, false)
  {
    var kept := DropBack(DropFront(EmitAll(blocks, Nothing)));
    KeepSerializedRows(blocks);
    EmitUnbroken(blocks, Nothing);
    TrimmedUnbroken(EmitAll(blocks, Nothing));
    assert kept != [];
    SplitJoin(kept);
  }

  lemma FirstIsBlank(blocks: seq<Block>)
    requires blocks != [] && !HasWords(blocks[0])
    ensures EmitAll(blocks, Nothing) != [] && Blank(EmitAll(blocks, Nothing)[0])
  {
    var lines := Split(blocks[0].text);
    assert lines[0] in lines && Emit(blocks[0], Nothing)[0] == lines[0];
  }

  lemma AgreementHasWords(blocks: seq<Block>)
    requires AllFilled(blocks) && KeepSerialized(blocks) == Serialized(blocks) && blocks != []
    ensures AllHaveWords(blocks)
  {
    var emitted := EmitAll(blocks, Nothing);
    EqualBodiesHaveEqualRows(blocks);
    DropsShorten(emitted);
    DropsShorten(DropFront(emitted));
    RowsAreMore(blocks, true, false, Nothing);
    if !HasWords(blocks[0]) {
      FirstIsBlank(blocks);
    }
    assert forall b :: b in blocks ==> b == blocks[0] || b in blocks[1..];
  }

  /** So nothing was trimmed and no separator was saved. */
  lemma AgreementIsClean(blocks: seq<Block>)
    requires AllFilled(blocks) && KeepSerialized(blocks) == Serialized(blocks) && blocks != []
    ensures AllHaveWords(blocks) && CleanEnds(blocks)
  {
    AgreementHasWords(blocks);
    EqualBodiesHaveEqualRows(blocks);
    RowsAgree(blocks, Nothing);
    RowsEnd(blocks, true, false);
    TrimmedEnds(Rows(blocks, true, false));
  }

  lemma {:induction false} EmitUnbroken(blocks: seq<Block>, prev: Prev)
    requires AllFilled(blocks)
    ensures Unbroken(EmitAll(blocks, prev))
  {
    if blocks != [] {
      assert Filled(blocks[0]) && forall b :: b in blocks[1..] ==> b in blocks;
      EmitUnbroken(blocks[1..], After(blocks[0], prev));
      if blocks[0].Check? {
        BoxLineUnbroken(blocks[0].checked, blocks[0].text);
      }
    }
  }

  lemma CleanBlocksAgree(blocks: seq<Block>)
    requires AllFilled(blocks) && AllHaveWords(blocks) && CleanEnds(blocks)
    ensures KeepSerialized(blocks) == Serialized(blocks)
  {
    var rows := Rows(blocks, true, false);
    KeepSerializedRows(blocks);
    assert EmitAll(blocks, Nothing) == rows by {
      RowsAgree(blocks, Nothing);
    }
    assert DropBack(DropFront(rows)) == rows by {
      if blocks != [] {
        RowsEnd(blocks, true, false);
      }
      RoundTrip.DropNothing(rows);
    }
  }

  /** When the importer's printer and the editor's give the same body. */
  lemma PrintersAgreeExactly(blocks: seq<Block>)
    requires AllFilled(blocks)
    ensures KeepSerialized(blocks) == Serialized(blocks) <==> AllHaveWords(blocks) && CleanEnds(blocks)
  {
    if AllHaveWords(blocks) && CleanEnds(blocks) {
      CleanBlocksAgree(blocks);
    } else if KeepSerialized(blocks) == Serialized(blocks) {
      AgreementIsClean(blocks);
    }
  }
}
