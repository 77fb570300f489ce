/** The block flow of the editor under its keyboard edits: web/src/components/editor/BlockList.tsx. */
module BlockEdits {
  import opened Wrappers
  import opened Sequences
  import opened Text
  import opened Markdown

  /** A block and the number its id is built from. */
  datatype EditorBlock = EditorBlock(id: nat, block: Block)

  datatype Caret = Unset | At(offset: nat) | End

  datatype Focus = Focus(id: nat, caret: Caret)

  /** The blocks, the pending focus, and the last number given out by `blockId`. */
  datatype Editor = Editor(blocks: seq<EditorBlock>, focus: Option<Focus>, lastId: nat)

  // ----- Edits -----

  /** Replaces `remove` blocks by `pieces`, never leaving the list empty. */
  function Splice(blocks: seq<EditorBlock>, index: nat, remove: nat, pieces: seq<EditorBlock>,
                  focus: Option<Focus>, lastId: nat): Editor
    requires index + remove <= |blocks|
  {
    var next := blocks[..index] + pieces + blocks[index + remove..];
    if next != [] then Editor(next, focus, lastId)
    else Editor([EditorBlock(lastId + 1, Text(""))], focus, lastId + 1)
  }

  function InsertCheckAt(e: Editor, index: nat): Editor
    requires index <= |e.blocks|
  {
    var id := e.lastId + 1;
    Splice(e.blocks, index, 0, [EditorBlock(id, Check(false, ""))], Some(Focus(id, Unset)), id)
  }

  function IndexOf(blocks: seq<EditorBlock>, id: nat): (index: nat)
    ensures index <= |blocks| && (index < |blocks| ==> blocks[index].id == id)
    ensures index == |blocks| ==> forall b :: b in blocks ==> b.id != id
  {
    if blocks == [] || blocks[0].id == id then 0 else 1 + IndexOf(blocks[1..], id)
  }

  /** `text.replace(/\n+$/, '')` */
  function TrimNewlinesEnd(s: string): string {
    if s != "" && s[|s| - 1] == '\n' then TrimNewlinesEnd(s[..|s| - 1]) else s
  }

  /** `text.replace(/^\n+/, '')` */
  function TrimNewlinesStart(s: string): string {
    if s != "" && s[0] == '\n' then TrimNewlinesStart(s[1..]) else s
  }

  function Min(a: nat, b: nat): nat {
    if a < b then a else b
  }

  /** What a cut paragraph becomes; an empty half leaves no block. */
  function CutPieces(paragraph: nat, before: string, after: string, id: nat): seq<EditorBlock> {
    (if before != "" then [EditorBlock(paragraph, Text(before))] else [])
    + [EditorBlock(id, Check(false, ""))]
    + (if after != "" then [EditorBlock(id + 1, Text(after))] else [])
  }

  /** A paragraph cut in two around a new box. */
  function Cut(e: Editor, index: nat, before: string, after: string): Editor
    requires index < |e.blocks|
  {
    var id := e.lastId + 1;
    Splice(e.blocks, index, 1, CutPieces(e.blocks[index].id, before, after, id),
           Some(Focus(id, Unset)), if after != "" then id + 1 else id)
  }

  /** The insert button: at the remembered caret, or at the bottom. */
  function InsertCheck(e: Editor, origin: Option<(nat, Option<nat>)>): Editor {
    var index := if origin.None? then |e.blocks| else IndexOf(e.blocks, origin.value.0);
    if index == |e.blocks| then InsertCheckAt(e, |e.blocks|)
    else
      var b := e.blocks[index];
      if b.block.Check? then InsertCheckAt(e, index + 1)
      else
        var text := b.block.text;
        var caret := if origin.value.1.Some? then Min(origin.value.1.value, |text|) else |text|;
        Cut(e, index, TrimNewlinesEnd(text[..caret]), TrimNewlinesStart(text[caret..]))
  }

  function SplitCheckAt(e: Editor, index: nat, start: nat, end: nat): Editor
    requires index < |e.blocks| && start <= end <= |e.blocks[index].block.text|
  {
    var b := e.blocks[index];
    if b.block.Text? then e
    else
      var id := e.lastId + 1;
      Splice(e.blocks, index, 1,
             [EditorBlock(b.id, Check(b.block.checked, b.block.text[..start])),
              EditorBlock(id, Check(false, b.block.text[end..]))],
             Some(Focus(id, At(0))), id)
  }

  function RemoveAt(e: Editor, index: nat): Editor
    requires index < |e.blocks|
  {
    Splice(e.blocks, index, 1, [],
           if index > 0 then Some(Focus(e.blocks[index - 1].id, End)) else None, e.lastId)
  }

  function ExitChecklistAt(e: Editor, index: nat): Editor
    requires index < |e.blocks|
  {
    var id := e.lastId + 1;
    Editor(e.blocks[index := EditorBlock(id, Text(""))], Some(Focus(id, Unset)), id)
  }

  /** Enter in a box label, with the selection from `start` to `end`. */
  function PressEnter(e: Editor, index: nat, start: nat, end: nat): Editor
    requires index < |e.blocks| && start <= end <= |e.blocks[index].block.text|
  {
    var b := e.blocks[index].block;
    if b.Text? then e
    else if b.text == "" then ExitChecklistAt(e, index)
    else if start == |b.text| then InsertCheckAt(e, index + 1)
    else SplitCheckAt(e, index, start, end)
  }

  function WithText(block: Block, text: string): Block {
    block.(text := text)
  }

  /** The label of the box at `index` takes the first line of the paragraph below it. */
  function AbsorbParagraph(e: Editor, index: nat): Editor
    requires index + 1 < |e.blocks| && e.blocks[index].block.Check? && e.blocks[index + 1].block.Text?
  {
    var box, paragraph := e.blocks[index], e.blocks[index + 1];
    var lines := Split(paragraph.block.text);
    var rest := DropFront(lines[1..]);
    var merged := EditorBlock(box.id, WithText(box.block, box.block.text + lines[0]));
    Splice(e.blocks, index, 2,
           if rest != [] then [merged, EditorBlock(paragraph.id, Text(Join(rest)))] else [merged],
           Some(Focus(box.id, At(|box.block.text|))), e.lastId)
  }

  function MergeTextBack(e: Editor, index: nat): Editor
    requires index < |e.blocks|
  {
    var cur := e.blocks[index];
    if cur.block.Check? || index == 0 then e
    else
      var prev := e.blocks[index - 1];
      if cur.block.text == "" then RemoveAt(e, index)
      else if prev.block.Check? then AbsorbParagraph(e, index - 1)
      else if prev.block.text == "" then
        Splice(e.blocks, index - 1, 1, [], Some(Focus(cur.id, At(0))), e.lastId)
      else
        Splice(e.blocks, index - 1, 2,
               [EditorBlock(prev.id, Text(prev.block.text + "\n" + cur.block.text))],
               Some(Focus(prev.id, At(|prev.block.text| + 1))), e.lastId)
  }

  function MergeTextForward(e: Editor, index: nat): Editor
    requires index < |e.blocks|
  {
    var cur := e.blocks[index];
    if cur.block.Check? || index + 1 == |e.blocks| then e
    else
      var next := e.blocks[index + 1];
      var text :=
        if next.block.Check? then cur.block.text + next.block.text
        else if cur.block.text == "" then next.block.text
        else cur.block.text + "\n" + next.block.text;
      Splice(e.blocks, index, 2, [EditorBlock(cur.id, Text(text))],
             Some(Focus(cur.id, At(|cur.block.text|))), e.lastId)
  }

  function MergeLabelBack(e: Editor, index: nat): Editor
    requires index < |e.blocks|
  {
    var cur := e.blocks[index];
    if cur.block.Text? then e
    else if cur.block.text == "" then RemoveAt(e, index)
    else if index == 0 then
      var id := e.lastId + 1;
      Splice(e.blocks, 0, 1, [EditorBlock(id, Text(cur.block.text))], Some(Focus(id, At(0))), id)
    else
      var prev := e.blocks[index - 1];
      var was := prev.block.text;
      var joined := if prev.block.Check? || was == "" then was + cur.block.text else was + "\n" + cur.block.text;
      Splice(e.blocks, index - 1, 2, [EditorBlock(prev.id, WithText(prev.block, joined))],
             Some(Focus(prev.id, At(if prev.block.Check? || was == "" then |was| else |was| + 1))), e.lastId)
  }

  function MergeLabelForward(e: Editor, index: nat): Editor
    requires index < |e.blocks|
  {
    var cur := e.blocks[index];
    if cur.block.Text? || index + 1 == |e.blocks| then e
    else
      var next := e.blocks[index + 1];
      if next.block.Text? then AbsorbParagraph(e, index)
      else
        Splice(e.blocks, index, 2, [EditorBlock(cur.id, WithText(cur.block, cur.block.text + next.block.text))],
               Some(Focus(cur.id, At(|cur.block.text|))), e.lastId)
  }

  datatype Edit =
    | Insert(origin: Option<(nat, Option<nat>)>)
    | Enter(index: nat, caret: nat)
    | BackspaceInText(index: nat)
    | DeleteInText(index: nat)
    | BackspaceInLabel(index: nat)
    | DeleteInLabel(index: nat)

  /** One edit with an empty selection; an index or caret outside the list is no edit. */
  function Apply(e: Editor, edit: Edit): Editor {
    match edit
    case Insert(origin) => InsertCheck(e, origin)
    case Enter(i, caret) => if i < |e.blocks| && caret <= |e.blocks[i].block.text| then PressEnter(e, i, caret, caret) else e
    case BackspaceInText(i) => if i < |e.blocks| then MergeTextBack(e, i) else e
    case DeleteInText(i) => if i < |e.blocks| then MergeTextForward(e, i) else e
    case BackspaceInLabel(i) => if i < |e.blocks| then MergeLabelBack(e, i) else e
    case DeleteInLabel(i) => if i < |e.blocks| then MergeLabelForward(e, i) else e
  }

  function ApplyAll(e: Editor, edits: seq<Edit>): Editor
    decreases |edits|
  {
    if edits == [] then e else ApplyAll(Apply(e, edits[0]), edits[1..])
  }

  // ----- What edits keep -----

  predicate DistinctIds(blocks: seq<EditorBlock>) {
    forall i, j :: 0 <= i < j < |blocks| ==> blocks[i].id != blocks[j].id
  }

  predicate IdsUpTo(blocks: seq<EditorBlock>, lastId: nat) {
    forall b :: b in blocks ==> b.id <= lastId
  }

  /** The focus names a block, with its caret inside the text. */
  predicate FocusOn(b: EditorBlock, focus: Focus) {
    b.id == focus.id && (focus.caret.At? ==> focus.caret.offset <= |b.block.text|)
  }

  predicate FocusOk(blocks: seq<EditorBlock>, focus: Option<Focus>) {
    focus.Some? ==> exists b :: b in blocks && FocusOn(b, focus.value)
  }

  predicate Valid(e: Editor) {
    e.blocks != [] && DistinctIds(e.blocks) && IdsUpTo(e.blocks, e.lastId) && FocusOk(e.blocks, e.focus)
  }

  /** The characters that are not white space, in order. */
  function Ink(s: string): string {
    if s == "" then "" else (if IsSpace(s[0]) then "" else [s[0]]) + Ink(s[1..])
  }

  function Content(blocks: seq<EditorBlock>): string {
    if blocks == [] then "" else Ink(blocks[0].block.text) + Content(blocks[1..])
  }

  /** Still a valid editor, with the same ink. */
  predicate Kept(e: Editor, r: Editor) {
    Valid(r) && Content(r.blocks) == Content(e.blocks)
  }

  lemma KeptSelf(e: Editor)
    requires Valid(e)
    ensures Kept(e, e)
  {
  }

  lemma {:induction false} InkConcat(a: string, b: string)
    ensures Ink(a + b) == Ink(a) + Ink(b)
  {
    hide IsSpace;
    if a == "" {
      assert a + b == b;
    } else {
      TailOfConcat(a, b);
      InkConcat(a[1..], b);
      Associate(if IsSpace(a[0]) then "" else [a[0]], Ink(a[1..]), Ink(b));
    }
  }

  lemma {:induction false} BlankHasNoInk(s: string)
    requires Blank(s)
    ensures Ink(s) == ""
  {
    if s != "" {
      BlankHasNoInk(s[1..]);
    }
  }

  lemma {:induction false} ContentConcat(a: seq<EditorBlock>, b: seq<EditorBlock>)
    ensures Content(a + b) == Content(a) + Content(b)
  {
    hide Ink;
    if a == [] {
      assert a + b == b;
    } else {
      TailOfConcat(a, b);
      ContentConcat(a[1..], b);
      Associate(Ink(a[0].block.text), Content(a[1..]), Content(b));
    }
  }

  lemma ContentOfOne(b: EditorBlock)
    ensures Content([b]) == Ink(b.block.text)
  {
    assert [b][1..] == [];
  }

  lemma ContentOfTwo(a: EditorBlock, b: EditorBlock)
    ensures Content([a, b]) == Ink(a.block.text) + Ink(b.block.text)
  {
    ContentOfOne(b);
    assert [a, b][1..] == [b];
  }

  /** Pieces with ids of what they replace, or new ones. */
  predicate IdsFit(blocks: seq<EditorBlock>, index: nat, remove: nat, pieces: seq<EditorBlock>, oldLast: nat, lastId: nat)
    requires index + remove <= |blocks|
  {
    && oldLast <= lastId
    && DistinctIds(pieces)
    && forall b :: b in pieces ==>
         || oldLast < b.id <= lastId
         || exists was :: was in blocks[index..index + remove] && was.id == b.id
  }

  /** And with the ink of what they replace. */
  predicate FitsIn(blocks: seq<EditorBlock>, index: nat, remove: nat, pieces: seq<EditorBlock>, oldLast: nat, lastId: nat)
    requires index + remove <= |blocks|
  {
    && IdsFit(blocks, index, remove, pieces, oldLast, lastId)
    && Content(pieces) == Content(blocks[index..index + remove])
  }

  lemma SpliceContent(blocks: seq<EditorBlock>, index: nat, remove: nat, pieces: seq<EditorBlock>)
    requires index + remove <= |blocks| && Content(pieces) == Content(blocks[index..index + remove])
    ensures Content(blocks[..index] + pieces + blocks[index + remove..]) == Content(blocks)
  {
    var head, middle, tail := blocks[..index], blocks[index..index + remove], blocks[index + remove..];
    ContentConcat(head, pieces);
    ContentConcat(head + pieces, tail);
    ContentConcat(head, middle);
    ContentConcat(head + middle, tail);
    assert blocks == head + middle + tail;
  }

  lemma SpliceIds(blocks: seq<EditorBlock>, index: nat, remove: nat, pieces: seq<EditorBlock>, oldLast: nat, lastId: nat)
    requires index + remove <= |blocks| && DistinctIds(blocks) && IdsUpTo(blocks, oldLast)
    requires IdsFit(blocks, index, remove, pieces, oldLast, lastId)
    ensures var next := blocks[..index] + pieces + blocks[index + remove..];
      DistinctIds(next) && IdsUpTo(next, lastId)
  {
    var next := blocks[..index] + pieces + blocks[index + remove..];
    var n := |pieces|;
    forall b | b in pieces ensures forall i :: 0 <= i < |blocks| && !(index <= i < index + remove) ==> blocks[i].id != b.id {
      forall i | 0 <= i < |blocks| && !(index <= i < index + remove) ensures blocks[i].id != b.id {
        assert blocks[i] in blocks;
        if b.id <= oldLast {
          var k :| 0 <= k < remove && blocks[index..index + remove][k].id == b.id;
          assert blocks[index + k].id == b.id;
        }
      }
    }
    forall i, j | 0 <= i < j < |next| ensures next[i].id != next[j].id {
      assert index <= i < index + n ==> next[i] in pieces;
      assert index <= j < index + n ==> next[j] in pieces;
      assert i >= index + n ==> next[i] == blocks[i - n + remove];
      assert j >= index + n ==> next[j] == blocks[j - n + remove];
    }
  }

  lemma SpliceKeeps(e: Editor, index: nat, remove: nat, pieces: seq<EditorBlock>, focus: Option<Focus>, lastId: nat)
    requires Valid(e) && index + remove <= |e.blocks|
    requires FitsIn(e.blocks, index, remove, pieces, e.lastId, lastId)
    requires FocusOk(e.blocks[..index] + pieces + e.blocks[index + remove..], focus)
    ensures Kept(e, Splice(e.blocks, index, remove, pieces, focus, lastId))
  {
    SpliceContent(e.blocks, index, remove, pieces);
    SpliceIds(e.blocks, index, remove, pieces, e.lastId, lastId);
    ContentOfOne(EditorBlock(lastId + 1, Text("")));
  }

  /** The focus lands on the block that ends up at `at`. */
  lemma KeepsAt(e: Editor, index: nat, remove: nat, pieces: seq<EditorBlock>, at: nat, focus: Focus, lastId: nat)
    requires Valid(e) && index + remove <= |e.blocks|
    requires FitsIn(e.blocks, index, remove, pieces, e.lastId, lastId)
    requires at < |e.blocks| - remove + |pieces|
    requires FocusOn(
      if at < index then e.blocks[at]
      else if at < index + |pieces| then pieces[at - index]
      else e.blocks[at - |pieces| + remove], focus)
    ensures Kept(e, Splice(e.blocks, index, remove, pieces, Some(focus), lastId))
  {
    var next := e.blocks[..index] + pieces + e.blocks[index + remove..];
    assert next[at] in next && FocusOn(next[at], focus);
    SpliceKeeps(e, index, remove, pieces, Some(focus), lastId);
  }

  lemma KeepsOne(e: Editor, index: nat, remove: nat, piece: EditorBlock, focus: Focus, lastId: nat)
    requires Valid(e) && index + remove <= |e.blocks|
    requires FitsIn(e.blocks, index, remove, [piece], e.lastId, lastId) && FocusOn(piece, focus)
    ensures Kept(e, Splice(e.blocks, index, remove, [piece], Some(focus), lastId))
  {
    KeepsAt(e, index, remove, [piece], index, focus, lastId);
  }

  lemma FitsBetween(blocks: seq<EditorBlock>, index: nat, piece: EditorBlock, lastId: nat)
    requires index <= |blocks| && piece.block.text == "" && piece.id == lastId + 1
    ensures FitsIn(blocks, index, 0, [piece], lastId, lastId + 1)
  {
    ContentOfOne(piece);
    assert blocks[index..index + 0] == [];
  }

  lemma FitsForOne(blocks: seq<EditorBlock>, index: nat, pieces: seq<EditorBlock>, oldLast: nat, lastId: nat)
    requires index < |blocks| && oldLast <= lastId && DistinctIds(pieces)
    requires Content(pieces) == Ink(blocks[index].block.text)
    requires forall b :: b in pieces ==> oldLast < b.id <= lastId || b.id == blocks[index].id
    ensures FitsIn(blocks, index, 1, pieces, oldLast, lastId)
  {
    Singled(blocks, index);
    assert blocks[index] in blocks[index..index + 1];
  }

  lemma InsertCheckAtKeeps(e: Editor, index: nat)
    requires Valid(e) && index <= |e.blocks|
    ensures Kept(e, InsertCheckAt(e, index))
  {
    hide Kept, Valid, FitsIn;
    var id := e.lastId + 1;
    var piece := EditorBlock(id, Check(false, ""));
    FitsBetween(e.blocks, index, piece, e.lastId);
    KeepsOne(e, index, 0, piece, Focus(id, Unset), id);
  }

  lemma {:induction false} TrimmedEndInk(s: string)
    ensures Ink(TrimNewlinesEnd(s)) == Ink(s)
  {
    if s != "" && s[|s| - 1] == '\n' {
      TrimmedEndInk(s[..|s| - 1]);
      assert s == s[..|s| - 1] + "\n";
      InkConcat(s[..|s| - 1], "\n");
      BlankHasNoInk("\n");
    }
  }

  lemma {:induction false} TrimmedStartInk(s: string)
    ensures Ink(TrimNewlinesStart(s)) == Ink(s)
  {
    if s != "" && s[0] == '\n' {
      TrimmedStartInk(s[1..]);
    }
  }

  lemma Singled(blocks: seq<EditorBlock>, index: nat)
    requires index < |blocks|
    ensures blocks[index..index + 1] == [blocks[index]]
    ensures Content(blocks[index..index + 1]) == Ink(blocks[index].block.text)
  {
    assert blocks[index..index + 1] == [blocks[index]];
    ContentOfOne(blocks[index]);
  }

  lemma Paired(blocks: seq<EditorBlock>, index: nat)
    requires index + 1 < |blocks|
    ensures blocks[index..index + 2] == [blocks[index], blocks[index + 1]]
    ensures Content(blocks[index..index + 2]) == Ink(blocks[index].block.text) + Ink(blocks[index + 1].block.text)
    ensures blocks[index] in blocks[index..index + 2] && blocks[index + 1] in blocks[index..index + 2]
  {
    assert blocks[index..index + 2] == [blocks[index], blocks[index + 1]];
    ContentOfTwo(blocks[index], blocks[index + 1]);
  }

  lemma InkCut(s: string, caret: nat)
    requires caret <= |s|
    ensures Ink(s[..caret]) + Ink(s[caret..]) == Ink(s)
  {
    hide Ink;
    CutInTwo(s, caret);
    InkConcat(s[..caret], s[caret..]);
  }

  lemma ReplaceIsSplice(blocks: seq<EditorBlock>, index: nat, piece: EditorBlock, focus: Option<Focus>, lastId: nat)
    requires index < |blocks|
    ensures Splice(blocks, index, 1, [piece], focus, lastId) == Editor(blocks[index := piece], focus, lastId)
  {
    assert blocks[..index] + [piece] + blocks[index + 1..] == blocks[index := piece];
  }

  lemma CutContent(paragraph: nat, before: string, after: string, id: nat)
    ensures Content(CutPieces(paragraph, before, after, id)) == Ink(before) + Ink(after)
  {
    var top := if before != "" then [EditorBlock(paragraph, Text(before))] else [];
    var bottom := if after != "" then [EditorBlock(id + 1, Text(after))] else [];
    assert Content(top) == Ink(before) by {
      if before != "" {
        ContentOfOne(top[0]);
      }
    }
    assert Content(bottom) == Ink(after) by {
      if after != "" {
        ContentOfOne(bottom[0]);
      }
    }
    AroundBox(top, EditorBlock(id, Check(false, "")), bottom);
  }

  lemma CutFits(blocks: seq<EditorBlock>, index: nat, before: string, after: string, oldLast: nat)
    requires index < |blocks| && IdsUpTo(blocks, oldLast)
    requires Ink(before) + Ink(after) == Ink(blocks[index].block.text)
    ensures var id := oldLast + 1;
      FitsIn(blocks, index, 1, CutPieces(blocks[index].id, before, after, id), oldLast, if after != "" then id + 1 else id)
  {
    hide FitsIn, Content, Ink;
    var id := oldLast + 1;
    CutContent(blocks[index].id, before, after, id);
    assert blocks[index] in blocks;
    FitsForOne(blocks, index, CutPieces(blocks[index].id, before, after, id), oldLast, if after != "" then id + 1 else id);
  }

  /** The paragraph at `index` is cut in two around a new box. */
  lemma CutKeeps(e: Editor, index: nat, before: string, after: string)
    requires Valid(e) && index < |e.blocks|
    requires Ink(before) + Ink(after) == Ink(e.blocks[index].block.text)
    ensures Kept(e, Cut(e, index, before, after))
  {
    hide Kept, FitsIn, Splice, Content, Ink;
    CutFits(e.blocks, index, before, after, e.lastId);
    hide Valid;
    var b, id := e.blocks[index], e.lastId + 1;
    var at := if before != "" then 1 else 0;
    var pieces := CutPieces(b.id, before, after, id);
    assert pieces[at] == EditorBlock(id, Check(false, ""));
    KeepsAt(e, index, 1, pieces, index + at, Focus(id, Unset), if after != "" then id + 1 else id);
  }

  lemma CutAtCaretKeeps(e: Editor, index: nat, caret: nat)
    requires Valid(e) && index < |e.blocks| && caret <= |e.blocks[index].block.text|
    ensures var text := e.blocks[index].block.text;
      Kept(e, Cut(e, index, TrimNewlinesEnd(text[..caret]), TrimNewlinesStart(text[caret..])))
  {
    hide Kept, Valid, Cut;
    var text := e.blocks[index].block.text;
    TrimmedEndInk(text[..caret]);
    TrimmedStartInk(text[caret..]);
    InkCut(text, caret);
    CutKeeps(e, index, TrimNewlinesEnd(text[..caret]), TrimNewlinesStart(text[caret..]));
  }

  lemma InsertCheckKeeps(e: Editor, origin: Option<(nat, Option<nat>)>)
    requires Valid(e)
    ensures Kept(e, InsertCheck(e, origin))
  {
    hide Kept, Valid, Cut, InsertCheckAt;
    var index := if origin.None? then |e.blocks| else IndexOf(e.blocks, origin.value.0);
    if index == |e.blocks| {
      InsertCheckAtKeeps(e, index);
    } else if e.blocks[index].block.Check? {
      InsertCheckAtKeeps(e, index + 1);
    } else {
      var text := e.blocks[index].block.text;
      CutAtCaretKeeps(e, index, if origin.value.1.Some? then Min(origin.value.1.value, |text|) else |text|);
    }
  }

  lemma AroundBox(top: seq<EditorBlock>, box: EditorBlock, bottom: seq<EditorBlock>)
    requires box.block.text == ""
    ensures Content(top + [box] + bottom) == Content(top) + Content(bottom)
  {
    ContentConcat(top, [box]);
    ContentConcat(top + [box], bottom);
    ContentOfOne(box);
  }

  lemma ExitKeeps(e: Editor, index: nat)
    requires Valid(e) && index < |e.blocks| && e.blocks[index].block.text == ""
    ensures Kept(e, ExitChecklistAt(e, index))
  {
    hide Kept, Valid, FitsIn, Splice;
    var id := e.lastId + 1;
    var piece := EditorBlock(id, Text(""));
    ContentOfOne(piece);
    FitsForOne(e.blocks, index, [piece], e.lastId, id);
    KeepsOne(e, index, 1, piece, Focus(id, Unset), id);
    ReplaceIsSplice(e.blocks, index, piece, Some(Focus(id, Unset)), id);
  }

  lemma TwoFit(blocks: seq<EditorBlock>, index: nat, top: EditorBlock, bottom: EditorBlock, oldLast: nat)
    requires index < |blocks| && IdsUpTo(blocks, oldLast)
    requires top.id == blocks[index].id && bottom.id == oldLast + 1
    requires Ink(top.block.text) + Ink(bottom.block.text) == Ink(blocks[index].block.text)
    ensures FitsIn(blocks, index, 1, [top, bottom], oldLast, oldLast + 1)
  {
    assert blocks[index] in blocks;
    ContentOfTwo(top, bottom);
    FitsForOne(blocks, index, [top, bottom], oldLast, oldLast + 1);
  }

  lemma SplitKeeps(e: Editor, index: nat, caret: nat)
    requires Valid(e) && index < |e.blocks| && e.blocks[index].block.Check? && caret <= |e.blocks[index].block.text|
    ensures Kept(e, SplitCheckAt(e, index, caret, caret))
  {
    hide Kept, FitsIn, Splice;
    var b, id := e.blocks[index], e.lastId + 1;
    var text := b.block.text;
    var top, bottom := EditorBlock(b.id, Check(b.block.checked, text[..caret])), EditorBlock(id, Check(false, text[caret..]));
    assert FitsIn(e.blocks, index, 1, [top, bottom], e.lastId, id) by {
      InkCut(text, caret);
      TwoFit(e.blocks, index, top, bottom, e.lastId);
    }
    KeepsAt(e, index, 1, [top, bottom], index + 1, Focus(id, At(0)), id);
  }

  lemma EnterKeeps(e: Editor, index: nat, caret: nat)
    requires Valid(e) && index < |e.blocks| && caret <= |e.blocks[index].block.text|
    ensures Kept(e, PressEnter(e, index, caret, caret))
  {
    hide Kept, Valid;
    KeptSelf(e);
    var b := e.blocks[index].block;
    if b.Check? {
      if b.text == "" {
        ExitKeeps(e, index);
      } else if caret == |b.text| {
        InsertCheckAtKeeps(e, index + 1);
      } else {
        SplitKeeps(e, index, caret);
      }
    }
  }

  /** The list as if the selected part of the label had been typed over with nothing. */
  function WithoutSelection(e: Editor, index: nat, start: nat, end: nat): Editor
    requires index < |e.blocks| && start <= end <= |e.blocks[index].block.text|
  {
    var b := e.blocks[index];
    if b.block.Text? then e
    else e.(blocks := e.blocks[index := EditorBlock(b.id, WithText(b.block, b.block.text[..start] + b.block.text[end..]))],
            focus := None)
  }

  lemma RewriteIsValid(e: Editor, index: nat, block: Block)
    requires Valid(e) && index < |e.blocks|
    ensures Valid(e.(blocks := e.blocks[index := EditorBlock(e.blocks[index].id, block)], focus := None))
  {
    var next := e.blocks[index := EditorBlock(e.blocks[index].id, block)];
    assert forall i :: 0 <= i < |next| ==> next[i].id == e.blocks[i].id;
    forall c | c in next ensures c.id <= e.lastId {
      var i :| 0 <= i < |next| && next[i] == c;
      assert e.blocks[i] in e.blocks;
    }
  }

  lemma SplitDropsSelection(e: Editor, index: nat, start: nat, end: nat)
    requires index < |e.blocks| && start <= end <= |e.blocks[index].block.text| && e.blocks[index].block.Check?
    ensures SplitCheckAt(e, index, start, end) == SplitCheckAt(WithoutSelection(e, index, start, end), index, start, start)
  {
    var r, text := WithoutSelection(e, index, start, end), e.blocks[index].block.text;
    var rest := text[..start] + text[end..];
    assert rest[..start] == text[..start] && rest[start..] == text[end..];
    assert r.blocks[..index] == e.blocks[..index] && r.blocks[index + 1..] == e.blocks[index + 1..];
  }

  /** Enter with a selection is Enter after the selection is gone. */
  lemma EnterOnSelectionKeeps(e: Editor, index: nat, start: nat, end: nat)
    requires Valid(e) && index < |e.blocks| && start <= end <= |e.blocks[index].block.text|
    ensures Kept(WithoutSelection(e, index, start, end), PressEnter(e, index, start, end))
  {
    var b, r := e.blocks[index].block, WithoutSelection(e, index, start, end);
    if b.Text? {
      KeptSelf(e);
    } else if b.text == "" || start == |b.text| {
      assert b.text[..start] + b.text[end..] == b.text;
      assert r.blocks == e.blocks;
      EnterKeeps(e, index, start);
    } else {
      RewriteIsValid(e, index, WithText(b, b.text[..start] + b.text[end..]));
      hide Valid, Kept, SplitCheckAt;
      SplitDropsSelection(e, index, start, end);
      SplitKeeps(r, index, start);
    }
  }

  lemma RemoveKeeps(e: Editor, index: nat)
    requires Valid(e) && index < |e.blocks| && e.blocks[index].block.text == ""
    ensures Kept(e, RemoveAt(e, index))
  {
    hide Kept;
    Singled(e.blocks, index);
    if index > 0 {
      KeepsAt(e, index, 1, [], index - 1, Focus(e.blocks[index - 1].id, End), e.lastId);
    } else {
      SpliceKeeps(e, index, 1, [], None, e.lastId);
    }
  }

  // ----- Paragraph lines -----

  /** The ink of all lines. */
  function LinesInk(lines: seq<string>): string {
    if lines == [] then "" else Ink(lines[0]) + LinesInk(lines[1..])
  }

  lemma {:induction false} JoinInk(lines: seq<string>)
    ensures Ink(Join(lines)) == LinesInk(lines)
  {
    if |lines| == 1 {
      assert lines[1..] == [];
    } else if lines != [] {
      JoinInk(lines[1..]);
      BlankHasNoInk("\n");
      InkConcat(lines[0], "\n");
      InkConcat(lines[0] + "\n", Join(lines[1..]));
    }
  }

  lemma {:induction false} DropFrontInk(lines: seq<string>)
    ensures LinesInk(DropFront(lines)) == LinesInk(lines)
  {
    if lines != [] && Blank(lines[0]) {
      BlankHasNoInk(lines[0]);
      DropFrontInk(lines[1..]);
    }
  }

  lemma AbsorbedInk(title: string, text: string)
    ensures var lines := Split(text);
      Ink(title + lines[0]) + Ink(Join(DropFront(lines[1..]))) == Ink(title) + Ink(text)
  {
    var lines := Split(text);
    JoinSplit(text);
    JoinInk(lines);
    DropFrontInk(lines[1..]);
    JoinInk(DropFront(lines[1..]));
    InkConcat(title, lines[0]);
  }

  lemma PairFits(blocks: seq<EditorBlock>, index: nat, pieces: seq<EditorBlock>, lastId: nat)
    requires index + 1 < |blocks| && DistinctIds(blocks)
    requires Content(pieces) == Ink(blocks[index].block.text) + Ink(blocks[index + 1].block.text)
    requires DistinctIds(pieces)
    requires forall b :: b in pieces ==> b.id == blocks[index].id || b.id == blocks[index + 1].id
    ensures FitsIn(blocks, index, 2, pieces, lastId, lastId)
  {
    hide DistinctIds, Content;
    var replaced := blocks[index..index + 2];
    Paired(blocks, index);
    forall b | b in pieces ensures exists was :: was in replaced && was.id == b.id {
      assert blocks[index] in replaced && blocks[index + 1] in replaced;
    }
  }

  lemma AbsorbKeeps(e: Editor, index: nat)
    requires Valid(e) && index + 1 < |e.blocks|
    requires e.blocks[index].block.Check? && e.blocks[index + 1].block.Text?
    ensures Kept(e, AbsorbParagraph(e, index))
  {
    hide Kept, FitsIn, Splice;
    var box, paragraph := e.blocks[index], e.blocks[index + 1];
    var lines := Split(paragraph.block.text);
    var rest := DropFront(lines[1..]);
    var merged := EditorBlock(box.id, WithText(box.block, box.block.text + lines[0]));
    var below := EditorBlock(paragraph.id, Text(Join(rest)));
    var focus := Focus(box.id, At(|box.block.text|));
    AbsorbedInk(box.block.text, paragraph.block.text);
    if rest != [] {
      ContentOfTwo(merged, below);
      PairFits(e.blocks, index, [merged, below], e.lastId);
      KeepsAt(e, index, 2, [merged, below], index, focus, e.lastId);
    } else {
      ContentOfOne(merged);
      PairFits(e.blocks, index, [merged], e.lastId);
      KeepsOne(e, index, 2, merged, focus, e.lastId);
    }
  }

  /** Two neighbours become one with the id of one of them, a line break between or nothing. */
  lemma JoinKeeps(e: Editor, index: nat, id: nat, joined: Block, caret: nat)
    requires Valid(e) && index + 1 < |e.blocks|
    requires id == e.blocks[index].id || id == e.blocks[index + 1].id
    requires var a, b := e.blocks[index].block.text, e.blocks[index + 1].block.text;
      joined.text == a + b || joined.text == a + "\n" + b
    requires caret <= |joined.text|
    ensures Kept(e, Splice(e.blocks, index, 2, [EditorBlock(id, joined)], Some(Focus(id, At(caret))), e.lastId))
  {
    hide Kept, FitsIn, Splice;
    var a, b := e.blocks[index].block.text, e.blocks[index + 1].block.text;
    BlankHasNoInk("\n");
    InkConcat(a, b);
    InkConcat(a, "\n");
    InkConcat(a + "\n", b);
    ContentOfOne(EditorBlock(id, joined));
    PairFits(e.blocks, index, [EditorBlock(id, joined)], e.lastId);
    KeepsOne(e, index, 2, EditorBlock(id, joined), Focus(id, At(caret)), e.lastId);
  }

  lemma DropAboveKeeps(e: Editor, index: nat)
    requires Valid(e) && 0 < index < |e.blocks| && e.blocks[index - 1].block.text == ""
    ensures Kept(e, Splice(e.blocks, index - 1, 1, [], Some(Focus(e.blocks[index].id, At(0))), e.lastId))
  {
    hide Kept, Splice;
    Singled(e.blocks, index - 1);
    KeepsAt(e, index - 1, 1, [], index - 1, Focus(e.blocks[index].id, At(0)), e.lastId);
  }

  lemma MergeTextBackKeeps(e: Editor, index: nat)
    requires Valid(e) && index < |e.blocks|
    ensures Kept(e, MergeTextBack(e, index))
  {
    hide Kept, Valid, Splice, RemoveAt, AbsorbParagraph;
    KeptSelf(e);
    var cur := e.blocks[index];
    if cur.block.Text? && index > 0 {
      var prev := e.blocks[index - 1];
      if cur.block.text == "" {
        RemoveKeeps(e, index);
      } else if prev.block.Check? {
        AbsorbKeeps(e, index - 1);
      } else if prev.block.text == "" {
        DropAboveKeeps(e, index);
      } else {
        JoinKeeps(e, index - 1, prev.id, Text(prev.block.text + "\n" + cur.block.text), |prev.block.text| + 1);
      }
    }
  }

  lemma MergeTextForwardKeeps(e: Editor, index: nat)
    requires Valid(e) && index < |e.blocks|
    ensures Kept(e, MergeTextForward(e, index))
  {
    hide Kept, Valid, Splice;
    KeptSelf(e);
    var cur := e.blocks[index];
    if cur.block.Text? && index + 1 < |e.blocks| {
      var next := e.blocks[index + 1];
      assert "" + next.block.text == next.block.text;
      var text :=
        if next.block.Check? then cur.block.text + next.block.text
        else if cur.block.text == "" then next.block.text
        else cur.block.text + "\n" + next.block.text;
      JoinKeeps(e, index, cur.id, Text(text), |cur.block.text|);
    }
  }

  lemma MergeLabelBackKeeps(e: Editor, index: nat)
    requires Valid(e) && index < |e.blocks|
    ensures Kept(e, MergeLabelBack(e, index))
  {
    hide Kept, FitsIn, Splice;
    KeptSelf(e);
    var cur := e.blocks[index];
    if cur.block.Check? {
      if cur.block.text == "" {
        RemoveKeeps(e, index);
      } else if index == 0 {
        var id := e.lastId + 1;
        var piece := EditorBlock(id, Text(cur.block.text));
        ContentOfOne(piece);
        FitsForOne(e.blocks, 0, [piece], e.lastId, id);
        KeepsOne(e, 0, 1, piece, Focus(id, At(0)), id);
      } else {
        var prev := e.blocks[index - 1];
        var was := prev.block.text;
        var glued := prev.block.Check? || was == "";
        var joined := if glued then was + cur.block.text else was + "\n" + cur.block.text;
        JoinKeeps(e, index - 1, prev.id, WithText(prev.block, joined), if glued then |was| else |was| + 1);
      }
    }
  }

  lemma MergeLabelForwardKeeps(e: Editor, index: nat)
    requires Valid(e) && index < |e.blocks|
    ensures Kept(e, MergeLabelForward(e, index))
  {
    hide Kept, Valid, Splice;
    KeptSelf(e);
    var cur := e.blocks[index];
    if cur.block.Check? && index + 1 < |e.blocks| {
      var next := e.blocks[index + 1];
      if next.block.Text? {
        AbsorbKeeps(e, index);
      } else {
        JoinKeeps(e, index, cur.id, WithText(cur.block, cur.block.text + next.block.text), |cur.block.text|);
      }
    }
  }

  lemma EditKeeps(e: Editor, edit: Edit)
    requires Valid(e)
    ensures Kept(e, Apply(e, edit))
  {
    match edit {
      case Insert(origin) => InsertCheckKeeps(e, origin);
      case Enter(i, caret) =>
        if i < |e.blocks| && caret <= |e.blocks[i].block.text| {
          EnterKeeps(e, i, caret);
        }
      case BackspaceInText(i) => if i < |e.blocks| { MergeTextBackKeeps(e, i); }
      case DeleteInText(i) => if i < |e.blocks| { MergeTextForwardKeeps(e, i); }
      case BackspaceInLabel(i) => if i < |e.blocks| { MergeLabelBackKeeps(e, i); }
      case DeleteInLabel(i) => if i < |e.blocks| { MergeLabelForwardKeeps(e, i); }
    }
  }

  /** Any sequence of insertions, splits, exits and merges loses no ink, mixes up no ids, and keeps the focus in the text. */
  lemma {:induction false} EditsLoseNothing(e: Editor, edits: seq<Edit>)
    requires Valid(e)
    ensures Kept(e, ApplyAll(e, edits))
    decreases |edits|
  {
    if edits != [] {
      EditKeeps(e, edits[0]);
      EditsLoseNothing(Apply(e, edits[0]), edits[1..]);
    }
  }
}
