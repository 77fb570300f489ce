/** Checkbox syntax typed into a paragraph: `explodeChecks` and `changeText` of BlockList.tsx. */
module TypedChecks {
  import opened Wrappers
  import opened Sequences
  import opened Text
  import opened Markdown
  import opened RoundTrip
  import opened BlockEdits

  /** Where the opening bracket of `CHECKBOX_TYPED` stands: first, after a dash, or after a dash and a space. */
  function Bracket(line: string): Option<nat> {
    if |line| > 0 && line[0] == '[' then Some(0)
    else if |line| > 1 && line[0] == '-' && line[1] == '[' then Some(1)
    else if |line| > 2 && line[0] == '-' && IsSpace(line[1]) && line[2] == '[' then Some(2)
    else None
  }

  /** The index just after the closing bracket: `[]`, `[ ]`, `[x]` or `[X]`. */
  function AfterBrackets(line: string, open: nat): Option<nat>
    requires open < |line|
  {
    if open + 1 < |line| && line[open + 1] == ']' then Some(open + 2)
    else if open + 2 < |line| && line[open + 2] == ']'
         && (line[open + 1] == ' ' || line[open + 1] == 'x' || line[open + 1] == 'X') then Some(open + 3)
    else None
  }

  /** The box that a typed line becomes. */
  function TypedBox(line: string): Option<Block> {
    var open := Bracket(line);
    if open.None? then None
    else
      var rest := AfterBrackets(line, open.value);
      if rest.None? then None
      else
        var k := rest.value;
        var text := if k < |line| && IsSpace(line[k]) then line[k + 1..] else line[k..];
        if SingleLine(text) then Some(Check(line[k - 2] == 'x' || line[k - 2] == 'X', text)) else None
  }

  predicate NoTyped(lines: seq<string>) {
    forall line :: line in lines ==> TypedBox(line).None?
  }

  function FlushTyped(run: seq<string>): seq<Block> {
    var trimmed := DropBack(DropFront(run));
    if trimmed == [] then [] else [Text(Join(trimmed))]
  }

  function Pieces(lines: seq<string>, run: seq<string>): seq<Block> {
    if lines == [] then FlushTyped(run)
    else if TypedBox(lines[0]).Some? then FlushTyped(run) + [TypedBox(lines[0]).value] + Pieces(lines[1..], [])
    else Pieces(lines[1..], run + [lines[0]])
  }

  function Exploded(text: string): Option<seq<Block>> {
    if NoTyped(Split(text)) then None else Some(Pieces(Split(text), []))
  }

  lemma PiecesStep(pieces: seq<Block>, lines: seq<string>, i: nat, run: seq<string>)
    requires i < |lines|
    ensures pieces + Pieces(lines[i..], run) ==
            if TypedBox(lines[i]).Some? then
              pieces + FlushTyped(run) + [TypedBox(lines[i]).value] + Pieces(lines[i + 1..], [])
            else pieces + Pieces(lines[i + 1..], run + [lines[i]])
  {
    hide TypedBox, FlushTyped;
    assert lines[i..][1..] == lines[i + 1..];
  }

  lemma PiecesEnd(lines: seq<string>, run: seq<string>)
    ensures Pieces(lines[|lines|..], run) == FlushTyped(run)
  {
  }

  method ExplodeChecks(text: string) returns (r: Option<seq<Block>>)
    ensures r == Exploded(text)
  {
    hide Pieces, FlushTyped, TypedBox, Split;
    var lines := Split(text);
    if forall line :: line in lines ==> TypedBox(line).None? {
      return None;
    }
    var pieces: seq<Block> := [];
    var run: seq<string> := [];
    assert lines[0..] == lines && pieces + Pieces(lines, run) == Pieces(lines, run);
    for i := 0 to |lines|
      invariant pieces + Pieces(lines[i..], run) == Pieces(lines, [])
    {
      PiecesStep(pieces, lines, i, run);
      var typed := TypedBox(lines[i]);
      if typed.Some? {
        pieces := FlushTypedRun(pieces, run);
        run := [];
        pieces := pieces + [typed.value];
      } else {
        run := run + [lines[i]];
      }
    }
    PiecesEnd(lines, run);
    pieces := FlushTypedRun(pieces, run);
    return Some(pieces);
  }

  method FlushTypedRun(pieces: seq<Block>, run: seq<string>) returns (r: seq<Block>)
    ensures r == pieces + FlushTyped(run)
  {
    var lines := TrimFront(run);
    lines := TrimBack(lines);
    r := if |lines| > 0 then pieces + [Text(Join(lines))] else pieces;
  }

  // ----- Typed boxes survive a reopening -----

  /** Whatever the parser takes for a box is also a typed box, with the same reading. */
  lemma BoxesAreTyped(line: string)
    requires IsBox(line)
    ensures TypedBox(line) == Some(BoxOf(line))
  {
    assert Bracket(line) == Some(2);
  }

  lemma TypedBoxSingleLine(line: string)
    requires TypedBox(line).Some?
    ensures TypedBox(line).value.Check? && SingleLine(TypedBox(line).value.text)
  {
  }

  lemma FlushTypedNormal(run: seq<string>, after: bool, before: bool)
    requires NoTyped(run) && Unbroken(run)
    ensures |FlushTyped(run)| <= 1
    ensures FlushTyped(run) != [] ==>
              && FlushTyped(run)[0].Text?
              && NormalLines(Split(FlushTyped(run)[0].text), after, before)
              && NoTyped(Split(FlushTyped(run)[0].text))
  {
    DropFrontSpec(run);
    DropBackSpec(DropFront(run));
    var lines := DropBack(DropFront(run));
    if lines != [] {
      SplitJoin(lines);
      forall line | line in lines ensures !IsBox(line) {
        if IsBox(line) {
          BoxesAreTyped(line);
        }
      }
    }
  }

  /** No text piece holds a typed box any more. */
  predicate Settled(pieces: seq<Block>) {
    forall piece :: piece in pieces && piece.Text? ==> Exploded(piece.text).None?
  }

  lemma {:induction false} PiecesNormal(lines: seq<string>, run: seq<string>, after: bool)
    requires NoTyped(run) && Unbroken(run) && Unbroken(lines)
    ensures NormalFrom(Pieces(lines, run), after) && Settled(Pieces(lines, run))
  {
    if lines == [] {
      FlushTypedNormal(run, after, false);
    } else if TypedBox(lines[0]).Some? {
      PiecesNormal(lines[1..], [], true);
      FlushTypedNormal(run, after, true);
      TypedBoxSingleLine(lines[0]);
      NormalAround(FlushTyped(run), TypedBox(lines[0]).value, Pieces(lines[1..], []), after);
    } else {
      PiecesNormal(lines[1..], run + [lines[0]], after);
    }
  }

  /** Typed boxes are in normal form, survive saving and reopening, and leave nothing more to convert. */
  lemma TypedChecksSurvive(text: string)
    requires Exploded(text).Some?
    ensures var pieces := Exploded(text).value;
      Normal(pieces) && Parsed(Serialized(pieces)) == pieces && Settled(pieces)
  {
    PiecesNormal(Split(text), [], false);
    SerializedParsesBack(Exploded(text).value);
  }

  // ----- What is converted, and into what -----

  /** At most one white space character before the label goes. */
  function TypedLabel(rest: string): string {
    if rest != "" && IsSpace(rest[0]) then rest[1..] else rest
  }

  /** An optional dash, then an optional white space, before the bracket. */
  predicate IsLead(lead: string) {
    lead == "" || lead == "-" || (|lead| == 2 && lead[0] == '-' && IsSpace(lead[1]))
  }

  predicate IsMark(mark: string) {
    mark == "" || mark == " " || mark == "x" || mark == "X"
  }

  /** `[]`, `[ ]`, `[x]`, `[X]`, with or without a dash, before a one-line label. */
  lemma TypedForms(lead: string, mark: string, rest: string)
    requires IsLead(lead) && IsMark(mark)
    ensures TypedBox(lead + "[" + mark + "]" + rest) ==
            if SingleLine(TypedLabel(rest)) then Some(Check(mark == "x" || mark == "X", TypedLabel(rest))) else None
  {
    hide SingleLine;
    var line, open := lead + "[" + mark + "]" + rest, |lead|;
    var k := open + |mark| + 2;
    assert line[open] == '[' && line[open + 1 + |mark|] == ']' && line[k..] == rest;
    assert mark != "" ==> line[open + 1] == mark[0];
    assert lead != "" ==> line[0] == '-';
    assert |lead| == 2 ==> line[1] == lead[1];
    assert Bracket(line) == Some(open);
    assert AfterBrackets(line, open) == Some(k);
    assert rest != "" ==> line[k] == rest[0] && line[k + 1..] == rest[1..];
    assert line[k - 2] == if mark == "" then '[' else mark[0];
  }

  lemma BracketPlace(line: string)
    requires Bracket(line).Some?
    ensures var open := Bracket(line).value;
      open < |line| && line[open] == '[' && IsLead(line[..open])
  {
  }

  lemma MarkPlace(line: string, open: nat)
    requires open < |line| && AfterBrackets(line, open).Some?
    ensures var k := AfterBrackets(line, open).value;
      open + 1 < k <= |line| && line[k - 1] == ']' && IsMark(line[open + 1..k - 1])
  {
    var k := AfterBrackets(line, open).value;
    assert k == open + 3 ==> line[open + 1..k - 1] == [line[open + 1]];
  }

  /** And nothing else. */
  lemma OnlyTypedForms(line: string)
    requires TypedBox(line).Some?
    ensures exists lead, mark, rest :: IsLead(lead) && IsMark(mark) && line == lead + "[" + mark + "]" + rest
  {
    hide IsLead, IsMark, Bracket, AfterBrackets;
    var open := Bracket(line).value;
    BracketPlace(line);
    var k := AfterBrackets(line, open).value;
    MarkPlace(line, open);
    CutAtTwo(line, open, k - 1);
    assert line == line[..open] + "[" + line[open + 1..k - 1] + "]" + line[k..];
  }

  lemma {:induction false} PiecesContinue(lines: seq<string>, typed: string, rest: seq<string>, run: seq<string>)
    requires TypedBox(typed).Some?
    ensures Pieces(lines + [typed] + rest, run) == Pieces(lines, run) + [TypedBox(typed).value] + Pieces(rest, [])
  {
    hide TypedBox, FlushTyped;
    if lines == [] {
      TailOfConcat([typed], rest);
      assert [] + [typed] + rest == [typed] + rest && [typed][1..] + rest == rest;
    } else {
      assert lines + [typed] + rest == lines + ([typed] + rest);
      TailOfConcat(lines, [typed] + rest);
      assert lines[1..] + ([typed] + rest) == lines[1..] + [typed] + rest;
      if TypedBox(lines[0]).Some? {
        PiecesContinue(lines[1..], typed, rest, []);
        var head := FlushTyped(run) + [TypedBox(lines[0]).value];
        Reassociate(head, Pieces(lines[1..], []), [TypedBox(typed).value], Pieces(rest, []));
      } else {
        PiecesContinue(lines[1..], typed, rest, run + [lines[0]]);
      }
    }
  }

  lemma {:induction false} PiecesOfText(lines: seq<string>, run: seq<string>)
    requires NoTyped(lines)
    ensures Pieces(lines, run) == FlushTyped(run + lines)
  {
    hide TypedBox, FlushTyped;
    if lines == [] {
      assert run + lines == run;
    } else {
      assert lines[0] in lines && forall line :: line in lines[1..] ==> line in lines;
      assert run + [lines[0]] + lines[1..] == run + lines;
      PiecesOfText(lines[1..], run + [lines[0]]);
    }
  }

  /** Text `t` is what stands between the blank lines at the edges of `run`. */
  predicate Within(run: seq<string>, t: string) {
    exists i, j :: 0 <= i < j <= |run| && Split(t) == run[i..j]
      && AllBlank(run[..i]) && AllBlank(run[j..]) && !Blank(run[i]) && !Blank(run[j - 1])
  }

  lemma WithinFrom(run: seq<string>, i: nat, j: nat)
    requires i < j <= |run| && Unbroken(run)
    requires AllBlank(run[..i]) && AllBlank(run[j..]) && !Blank(run[i]) && !Blank(run[j - 1])
    ensures Within(run, Join(run[i..j]))
  {
    assert forall line :: line in run[i..j] ==> line in run;
    SplitJoin(run[i..j]);
  }

  lemma TrimmedCut(run: seq<string>) returns (i: nat, j: nat)
    requires !AllBlank(run)
    ensures i < j <= |run| && DropBack(DropFront(run)) == run[i..j]
    ensures AllBlank(run[..i]) && AllBlank(run[j..]) && !Blank(run[i]) && !Blank(run[j - 1])
  {
    var fronted := DropFront(run);
    assert fronted != [] && DropBack(fronted) != [] by {
      DropFrontSpec(run);
      DropBackSpec(fronted);
    }
    hide Blank, AllBlank, DropFront, DropBack;
    i := FrontCut(run);
    var n := BackCut(fronted);
    j := i + n;
    assert n > 0;
    assert fronted[..n] == run[i..j] && fronted[n..] == run[j..] && fronted[n - 1] == run[j - 1];
  }

  lemma FlushedWithin(run: seq<string>)
    requires Unbroken(run)
    ensures if AllBlank(run) then FlushTyped(run) == []
            else |FlushTyped(run)| == 1 && FlushTyped(run)[0].Text? && Within(run, FlushTyped(run)[0].text)
  {
    if AllBlank(run) {
      DropFrontSpec(run);
    } else {
      hide Within, Blank, DropFront, DropBack;
      var i, j := TrimmedCut(run);
      WithinFrom(run, i, j);
    }
  }

  /**
   * A typed line becomes its box where it stands; the lines between two become one text without the blank
   * lines at its edges, or nothing when all are blank.
   */
  lemma TypedLinesCut(lines: seq<string>, typed: string, rest: seq<string>)
    requires Unbroken(lines) && TypedBox(typed).Some?
    ensures Pieces(lines + [typed] + rest, []) == Pieces(lines, []) + [TypedBox(typed).value] + Pieces(rest, [])
    ensures NoTyped(lines) ==>
              if AllBlank(lines) then Pieces(lines, []) == []
              else |Pieces(lines, [])| == 1 && Pieces(lines, [])[0].Text? && Within(lines, Pieces(lines, [])[0].text)
  {
    PiecesContinue(lines, typed, rest, []);
    if NoTyped(lines) {
      assert [] + lines == lines;
      PiecesOfText(lines, []);
      FlushedWithin(lines);
    }
  }

  // ----- A paragraph edit -----

  /** Pieces numbered from the id after `lastId`. */
  function Numbered(pieces: seq<Block>, lastId: nat): (r: seq<EditorBlock>)
    ensures |r| == |pieces|
    ensures forall i :: 0 <= i < |r| ==> r[i] == EditorBlock(lastId + 1 + i, pieces[i])
  {
    if pieces == [] then [] else [EditorBlock(lastId + 1, pieces[0])] + Numbered(pieces[1..], lastId + 1)
  }

  /** A leading text piece keeps the id of the paragraph. */
  function WithIds(pieces: seq<Block>, id: nat, lastId: nat): seq<EditorBlock> {
    if pieces != [] && pieces[0].Text? then [EditorBlock(id, pieces[0])] + Numbered(pieces[1..], lastId)
    else Numbered(pieces, lastId)
  }

  /** The focus goes to the end of the last box. */
  function LastBox(blocks: seq<EditorBlock>): Option<Focus> {
    if blocks == [] then None
    else
      var b := blocks[|blocks| - 1];
      if b.block.Check? then Some(Focus(b.id, End)) else LastBox(blocks[..|blocks| - 1])
  }

  function ChangeText(e: Editor, index: nat, text: string): Editor
    requires index < |e.blocks|
  {
    var b := e.blocks[index];
    if b.block.Check? then e
    else
      var pieces := Exploded(text);
      if pieces.None? then e.(blocks := e.blocks[index := EditorBlock(b.id, Text(text))])
      else
        var withIds := WithIds(pieces.value, b.id, e.lastId);
        var given := if pieces.value != [] && pieces.value[0].Text? then |withIds| - 1 else |withIds|;
        Splice(e.blocks, index, 1, withIds, LastBox(withIds), e.lastId + given)
  }

  lemma {:induction false} LastBoxIsThere(blocks: seq<EditorBlock>)
    ensures LastBox(blocks).Some? ==> exists b :: b in blocks && FocusOn(b, LastBox(blocks).value)
    ensures (exists b :: b in blocks && b.block.Check?) ==> LastBox(blocks).Some?
  {
    if blocks != [] {
      var n := |blocks| - 1;
      LastBoxIsThere(blocks[..n]);
      assert blocks == blocks[..n] + [blocks[n]] && blocks[n] in blocks;
    }
  }

  lemma WithIdsFit(blocks: seq<EditorBlock>, index: nat, pieces: seq<Block>, lastId: nat)
    requires index < |blocks| && IdsUpTo(blocks, lastId) && blocks[index] in blocks
    ensures var withIds := WithIds(pieces, blocks[index].id, lastId);
      IdsFit(blocks, index, 1, withIds, lastId,
             lastId + if pieces != [] && pieces[0].Text? then |withIds| - 1 else |withIds|)
  {
    Singled(blocks, index);
    assert blocks[index] in blocks[index..index + 1];
  }

  lemma {:induction false} PiecesHaveABox(lines: seq<string>, run: seq<string>)
    requires !NoTyped(lines)
    ensures exists piece :: piece in Pieces(lines, run) && piece.Check?
  {
    if TypedBox(lines[0]).Some? {
      TypedBoxSingleLine(lines[0]);
      assert TypedBox(lines[0]).value in Pieces(lines, run);
    } else {
      assert lines == [lines[0]] + lines[1..];
      PiecesHaveABox(lines[1..], run + [lines[0]]);
    }
  }

  lemma WithIdsHaveABox(pieces: seq<Block>, id: nat, lastId: nat)
    requires exists piece :: piece in pieces && piece.Check?
    ensures LastBox(WithIds(pieces, id, lastId)).Some?
  {
    var withIds := WithIds(pieces, id, lastId);
    var k :| 0 <= k < |pieces| && pieces[k].Check?;
    assert withIds[k].block == pieces[k] && withIds[k] in withIds;
    hide WithIds, LastBox;
    LastBoxIsThere(withIds);
  }

  lemma SpliceFocus(blocks: seq<EditorBlock>, index: nat, pieces: seq<EditorBlock>)
    requires index < |blocks|
    ensures FocusOk(blocks[..index] + pieces + blocks[index + 1..], LastBox(pieces))
  {
    var next := blocks[..index] + pieces + blocks[index + 1..];
    LastBoxIsThere(pieces);
    assert forall c :: c in pieces ==> c in next;
  }

  lemma SplicedIsValid(e: Editor, index: nat, pieces: seq<EditorBlock>, focus: Option<Focus>, lastId: nat)
    requires Valid(e) && index < |e.blocks| && pieces != []
    requires IdsFit(e.blocks, index, 1, pieces, e.lastId, lastId)
    requires FocusOk(e.blocks[..index] + pieces + e.blocks[index + 1..], focus)
    ensures Valid(Splice(e.blocks, index, 1, pieces, focus, lastId))
  {
    hide FocusOk, IdsFit, DistinctIds, IdsUpTo;
    SpliceIds(e.blocks, index, 1, pieces, e.lastId, lastId);
  }

  lemma ExplosionKeepsIds(e: Editor, index: nat, text: string)
    requires Valid(e) && index < |e.blocks| && e.blocks[index].block.Text? && Exploded(text).Some?
    ensures var r := ChangeText(e, index, text);
      Valid(r) && r.focus.Some?
  {
    hide WithIds, LastBox, IdsFit, FocusOk, Splice, Pieces;
    var b, pieces := e.blocks[index], Exploded(text).value;
    var withIds := WithIds(pieces, b.id, e.lastId);
    PiecesHaveABox(Split(text), []);
    WithIdsHaveABox(pieces, b.id, e.lastId);
    WithIdsAreThere(pieces, b.id, e.lastId);
    assert b in e.blocks;
    WithIdsFit(e.blocks, index, pieces, e.lastId);
    SpliceFocus(e.blocks, index, withIds);
    hide Valid, Exploded;
    SplicedIsValid(e, index, withIds, LastBox(withIds),
                   e.lastId + if pieces != [] && pieces[0].Text? then |withIds| - 1 else |withIds|);
    SpliceSetsFocus(e.blocks, index, withIds, LastBox(withIds),
                    e.lastId + if pieces != [] && pieces[0].Text? then |withIds| - 1 else |withIds|);
  }

  lemma SpliceSetsFocus(blocks: seq<EditorBlock>, index: nat, pieces: seq<EditorBlock>, focus: Option<Focus>, lastId: nat)
    requires index < |blocks|
    ensures Splice(blocks, index, 1, pieces, focus, lastId).focus == focus
  {
  }

  lemma WithIdsAreThere(pieces: seq<Block>, id: nat, lastId: nat)
    requires pieces != []
    ensures WithIds(pieces, id, lastId) != []
  {
  }

  /** A paragraph edit keeps ids distinct and, when it makes boxes, puts the focus on the last of them. */
  lemma ChangeTextKeepsIds(e: Editor, index: nat, text: string)
    requires Valid(e) && e.focus.None? && index < |e.blocks|
    ensures var r := ChangeText(e, index, text);
      && Valid(r)
      && (e.blocks[index].block.Text? ==> (r.focus.Some? <==> Exploded(text).Some?))
  {
    if e.blocks[index].block.Text? && Exploded(text).Some? {
      ExplosionKeepsIds(e, index, text);
    } else if e.blocks[index].block.Text? {
      RewriteIsValid(e, index, Text(text));
    }
  }
}
