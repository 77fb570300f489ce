/** Where the caret lands: every keyboard edit leaves it between the same two visible characters. */
module CaretPlace {
  import opened Wrappers
  import opened Text
  import opened Markdown
  import opened BlockEdits

  /** The effect that places the caret caps it at the length of the text; an untouched focus starts the block. */
  function Offset(b: EditorBlock, caret: Caret): (offset: nat)
    ensures offset <= |b.block.text|
  {
    match caret
    case Unset => 0
    case At(offset) => Min(offset, |b.block.text|)
    case End => |b.block.text|
  }

  /** The ink before the caret of a focus. */
  function InkBefore(blocks: seq<EditorBlock>, focus: Focus): string {
    if blocks == [] then ""
    else if blocks[0].id == focus.id then Ink(blocks[0].block.text[..Offset(blocks[0], focus.caret)])
    else Ink(blocks[0].block.text) + InkBefore(blocks[1..], focus)
  }

  /** The ink before the caret when the key is pressed, or before the place where a box is asked for. */
  function InkAtEdit(e: Editor, edit: Edit): string {
    match edit
    case Insert(origin) =>
      var index := if origin.None? then |e.blocks| else IndexOf(e.blocks, origin.value.0);
      if index == |e.blocks| then Content(e.blocks)
      else
        var text := e.blocks[index].block.text;
        if e.blocks[index].block.Check? then Content(e.blocks[..index + 1])
        else Content(e.blocks[..index]) + Ink(if origin.value.1.Some? then text[..Min(origin.value.1.value, |text|)] else text)
    case Enter(i, caret) =>
      if i < |e.blocks| && caret <= |e.blocks[i].block.text| then
        Content(e.blocks[..i]) + Ink(e.blocks[i].block.text[..caret])
      else ""
    case BackspaceInText(i) => if i <= |e.blocks| then Content(e.blocks[..i]) else ""
    case BackspaceInLabel(i) => if i <= |e.blocks| then Content(e.blocks[..i]) else ""
    case DeleteInText(i) => if i < |e.blocks| then Content(e.blocks[..i + 1]) else ""
    case DeleteInLabel(i) => if i < |e.blocks| then Content(e.blocks[..i + 1]) else ""
  }

  /** The focus the edit leaves, if any, stands after exactly this ink. */
  predicate Lands(r: Editor, ink: string) {
    r.focus.Some? ==> InkBefore(r.blocks, r.focus.value) == ink
  }

  lemma {:induction false} InkBeforeAt(blocks: seq<EditorBlock>, at: nat, focus: Focus)
    requires DistinctIds(blocks) && at < |blocks| && blocks[at].id == focus.id
    ensures InkBefore(blocks, focus) ==
            Content(blocks[..at]) + Ink(blocks[at].block.text[..Offset(blocks[at], focus.caret)])
  {
    if at > 0 {
      InkBeforeAt(blocks[1..], at - 1, focus);
      assert blocks[..at][1..] == blocks[1..][..at - 1];
    }
  }

  lemma PrefixContent(blocks: seq<EditorBlock>, i: nat)
    requires i < |blocks|
    ensures Content(blocks[..i + 1]) == Content(blocks[..i]) + Ink(blocks[i].block.text)
  {
    assert blocks[..i + 1] == blocks[..i] + [blocks[i]];
    ContentConcat(blocks[..i], [blocks[i]]);
    ContentOfOne(blocks[i]);
  }

  /** The focus on the `k`-th of the pieces put in. */
  lemma SpliceLands(e: Editor, index: nat, remove: nat, pieces: seq<EditorBlock>, k: nat, focus: Focus, lastId: nat)
    requires index + remove <= |e.blocks| && k < |pieces| && pieces[k].id == focus.id
    requires DistinctIds(Splice(e.blocks, index, remove, pieces, Some(focus), lastId).blocks)
    ensures Lands(Splice(e.blocks, index, remove, pieces, Some(focus), lastId),
                  Content(e.blocks[..index]) + Content(pieces[..k])
                  + Ink(pieces[k].block.text[..Offset(pieces[k], focus.caret)]))
  {
    hide Content, Ink, DistinctIds, InkBefore;
    var next := e.blocks[..index] + pieces + e.blocks[index + remove..];
    var at := index + k;
    assert next[at] == pieces[k] && next[..at] == e.blocks[..index] + pieces[..k];
    InkBeforeAt(next, at, focus);
    ContentConcat(e.blocks[..index], pieces[..k]);
  }

  /** The same with the caret at its start. */
  lemma StartLands(e: Editor, index: nat, remove: nat, pieces: seq<EditorBlock>, k: nat, focus: Focus, lastId: nat)
    requires index + remove <= |e.blocks| && k < |pieces| && pieces[k].id == focus.id
    requires Offset(pieces[k], focus.caret) == 0
    requires DistinctIds(Splice(e.blocks, index, remove, pieces, Some(focus), lastId).blocks)
    ensures Lands(Splice(e.blocks, index, remove, pieces, Some(focus), lastId),
                  Content(e.blocks[..index]) + Content(pieces[..k]))
  {
    hide Lands, DistinctIds, Splice, Content;
    SpliceLands(e, index, remove, pieces, k, focus, lastId);
    var ink := Content(e.blocks[..index]) + Content(pieces[..k]);
    assert pieces[k].block.text[..0] == "" && ink + Ink("") == ink;
  }

  lemma KeptIds(e: Editor, r: Editor)
    requires Kept(e, r)
    ensures DistinctIds(r.blocks)
  {
  }

  /** The focus on the first piece put in, whose text before the caret is `text`. */
  lemma FirstLands(e: Editor, index: nat, remove: nat, pieces: seq<EditorBlock>, focus: Focus, lastId: nat, text: string)
    requires index + remove <= |e.blocks| && pieces != [] && pieces[0].id == focus.id
    requires DistinctIds(Splice(e.blocks, index, remove, pieces, Some(focus), lastId).blocks)
    requires pieces[0].block.text[..Offset(pieces[0], focus.caret)] == text
    ensures Lands(Splice(e.blocks, index, remove, pieces, Some(focus), lastId), Content(e.blocks[..index]) + Ink(text))
  {
    hide Ink, DistinctIds, InkBefore;
    SpliceLands(e, index, remove, pieces, 0, focus, lastId);
    assert Content(pieces[..0]) == "";
    assert Content(e.blocks[..index]) + "" == Content(e.blocks[..index]);
  }

  lemma InsertAtLands(e: Editor, index: nat)
    requires Valid(e) && index <= |e.blocks|
    ensures Lands(InsertCheckAt(e, index), Content(e.blocks[..index]))
  {
    hide Lands;
    var id := e.lastId + 1;
    InsertCheckAtKeeps(e, index);
    FirstLands(e, index, 0, [EditorBlock(id, Check(false, ""))], Focus(id, Unset), id, "");
    assert Content(e.blocks[..index]) + Ink("") == Content(e.blocks[..index]);
  }

  lemma CutTop(paragraph: nat, before: string, after: string, id: nat)
    ensures var pieces, k := CutPieces(paragraph, before, after, id), if before != "" then 1 else 0;
      && k < |pieces| && pieces[k] == EditorBlock(id, Check(false, ""))
      && Content(pieces[..k]) == Ink(before)
  {
    var pieces := CutPieces(paragraph, before, after, id);
    if before != "" {
      assert pieces[..1] == [EditorBlock(paragraph, Text(before))];
      ContentOfOne(EditorBlock(paragraph, Text(before)));
    }
  }

  lemma CutLands(e: Editor, index: nat, before: string, after: string)
    requires Valid(e) && index < |e.blocks|
    requires Ink(before) + Ink(after) == Ink(e.blocks[index].block.text)
    ensures Lands(Cut(e, index, before, after), Content(e.blocks[..index]) + Ink(before))
  {
    hide Lands, Kept, Valid, Splice, Content, Ink, CutPieces, DistinctIds;
    var id := e.lastId + 1;
    var pieces := CutPieces(e.blocks[index].id, before, after, id);
    CutKeeps(e, index, before, after);
    KeptIds(e, Cut(e, index, before, after));
    CutTop(e.blocks[index].id, before, after, id);
    StartLands(e, index, 1, pieces, if before != "" then 1 else 0, Focus(id, Unset), if after != "" then id + 1 else id);
  }

  lemma InsertLands(e: Editor, origin: Option<(nat, Option<nat>)>)
    requires Valid(e)
    ensures Lands(InsertCheck(e, origin), InkAtEdit(e, Insert(origin)))
  {
    hide Lands, Valid, Cut, InsertCheckAt;
    var index := if origin.None? then |e.blocks| else IndexOf(e.blocks, origin.value.0);
    if index == |e.blocks| {
      InsertAtLands(e, index);
      assert e.blocks[..index] == e.blocks;
    } else if e.blocks[index].block.Check? {
      InsertAtLands(e, index + 1);
    } else {
      var text := e.blocks[index].block.text;
      var caret := if origin.value.1.Some? then Min(origin.value.1.value, |text|) else |text|;
      TrimmedEndInk(text[..caret]);
      TrimmedStartInk(text[caret..]);
      InkCut(text, caret);
      CutLands(e, index, TrimNewlinesEnd(text[..caret]), TrimNewlinesStart(text[caret..]));
      assert text[..|text|] == text;
    }
  }

  lemma SplitLands(e: Editor, index: nat, caret: nat)
    requires Valid(e) && index < |e.blocks| && e.blocks[index].block.Check? && caret <= |e.blocks[index].block.text|
    ensures Lands(SplitCheckAt(e, index, caret, caret),
                  Content(e.blocks[..index]) + Ink(e.blocks[index].block.text[..caret]))
  {
    hide Lands, Kept, Valid, Splice, DistinctIds;
    SplitKeeps(e, index, caret);
    KeptIds(e, SplitCheckAt(e, index, caret, caret));
    var b, id := e.blocks[index], e.lastId + 1;
    var top := EditorBlock(b.id, Check(b.block.checked, b.block.text[..caret]));
    var bottom := EditorBlock(id, Check(false, b.block.text[caret..]));
    StartLands(e, index, 1, [top, bottom], 1, Focus(id, At(0)), id);
    assert [top, bottom][..1] == [top];
    ContentOfOne(top);
  }

  lemma ExitLands(e: Editor, index: nat)
    requires Valid(e) && index < |e.blocks| && e.blocks[index].block.text == ""
    ensures Lands(ExitChecklistAt(e, index), Content(e.blocks[..index]))
  {
    hide Lands;
    ExitKeeps(e, index);
    var id := e.lastId + 1;
    var piece := EditorBlock(id, Text(""));
    ReplaceIsSplice(e.blocks, index, piece, Some(Focus(id, Unset)), id);
    FirstLands(e, index, 1, [piece], Focus(id, Unset), id, "");
    assert Content(e.blocks[..index]) + Ink("") == Content(e.blocks[..index]);
  }

  lemma EnterLands(e: Editor, index: nat, caret: nat)
    requires Valid(e) && index < |e.blocks| && caret <= |e.blocks[index].block.text| && e.blocks[index].block.Check?
    ensures Lands(PressEnter(e, index, caret, caret), Content(e.blocks[..index]) + Ink(e.blocks[index].block.text[..caret]))
  {
    hide Lands, Valid;
    var b := e.blocks[index].block;
    assert b.text[..|b.text|] == b.text;
    if b.text == "" {
      ExitLands(e, index);
      assert Content(e.blocks[..index]) + Ink("") == Content(e.blocks[..index]);
    } else if caret == |b.text| {
      InsertAtLands(e, index + 1);
      PrefixContent(e.blocks, index);
    } else {
      SplitLands(e, index, caret);
    }
  }

  /** Backspace in an empty block: to the end of the block above. */
  lemma RemoveLands(e: Editor, index: nat)
    requires Valid(e) && index < |e.blocks| && e.blocks[index].block.text == ""
    ensures Lands(RemoveAt(e, index), Content(e.blocks[..index]))
  {
    RemoveKeeps(e, index);
    if index > 0 {
      var next := e.blocks[..index] + [] + e.blocks[index + 1..];
      var focus := Focus(e.blocks[index - 1].id, End);
      assert next[index - 1] == e.blocks[index - 1] && next[..index - 1] == e.blocks[..index - 1];
      InkBeforeAt(next, index - 1, focus);
      PrefixContent(e.blocks, index - 1);
      var text := e.blocks[index - 1].block.text;
      assert text[..|text|] == text;
    }
  }

  lemma AbsorbLands(e: Editor, index: nat)
    requires Valid(e) && index + 1 < |e.blocks|
    requires e.blocks[index].block.Check? && e.blocks[index + 1].block.Text?
    ensures Lands(AbsorbParagraph(e, index), Content(e.blocks[..index + 1]))
  {
    hide Lands;
    AbsorbKeeps(e, index);
    var box, paragraph := e.blocks[index], e.blocks[index + 1];
    var lines := Split(paragraph.block.text);
    var rest := DropFront(lines[1..]);
    var merged := EditorBlock(box.id, WithText(box.block, box.block.text + lines[0]));
    var pieces := if rest != [] then [merged, EditorBlock(paragraph.id, Text(Join(rest)))] else [merged];
    assert merged.block.text[..|box.block.text|] == box.block.text;
    FirstLands(e, index, 2, pieces, Focus(box.id, At(|box.block.text|)), e.lastId, box.block.text);
    PrefixContent(e.blocks, index);
  }

  /** Two neighbours made one, the caret after `text`. */
  lemma JoinLands(e: Editor, index: nat, id: nat, joined: Block, text: string)
    requires Valid(e) && index + 1 < |e.blocks|
    requires id == e.blocks[index].id || id == e.blocks[index + 1].id
    requires var a, b := e.blocks[index].block.text, e.blocks[index + 1].block.text;
      joined.text == a + b || joined.text == a + "\n" + b
    requires |text| <= |joined.text| && joined.text[..|text|] == text
    requires Ink(text) == Ink(e.blocks[index].block.text)
    ensures Lands(Splice(e.blocks, index, 2, [EditorBlock(id, joined)], Some(Focus(id, At(|text|))), e.lastId),
                  Content(e.blocks[..index + 1]))
  {
    hide Lands;
    JoinKeeps(e, index, id, joined, |text|);
    FirstLands(e, index, 2, [EditorBlock(id, joined)], Focus(id, At(|text|)), e.lastId, text);
    PrefixContent(e.blocks, index);
  }

  lemma LineBreakHasNoInk(text: string)
    ensures Ink(text + "\n") == Ink(text)
  {
    InkConcat(text, "\n");
    BlankHasNoInk("\n");
  }

  /** An empty paragraph above goes: the caret stays at the start of this one. */
  lemma DropAboveLands(e: Editor, index: nat)
    requires Valid(e) && 0 < index < |e.blocks| && e.blocks[index - 1].block.text == ""
    requires DistinctIds(e.blocks[..index - 1] + [] + e.blocks[index..])
    ensures Lands(Splice(e.blocks, index - 1, 1, [], Some(Focus(e.blocks[index].id, At(0))), e.lastId),
                  Content(e.blocks[..index]))
  {
    var next := e.blocks[..index - 1] + [] + e.blocks[index..];
    var focus := Focus(e.blocks[index].id, At(0));
    assert next[index - 1] == e.blocks[index] && next[..index - 1] == e.blocks[..index - 1];
    InkBeforeAt(next, index - 1, focus);
    PrefixContent(e.blocks, index - 1);
    assert e.blocks[index].block.text[..0] == "";
  }

  lemma TextBackLands(e: Editor, index: nat)
    requires Valid(e) && 0 < index < |e.blocks| && e.blocks[index].block.Text?
    ensures Lands(MergeTextBack(e, index), Content(e.blocks[..index]))
  {
    hide Lands;
    MergeTextBackKeeps(e, index);
    var cur, prev := e.blocks[index], e.blocks[index - 1];
    if cur.block.text == "" {
      RemoveLands(e, index);
    } else if prev.block.Check? {
      AbsorbLands(e, index - 1);
    } else if prev.block.text == "" {
      DropAboveLands(e, index);
    } else {
      var joined := prev.block.text + "\n" + cur.block.text;
      assert joined[..|prev.block.text| + 1] == prev.block.text + "\n";
      LineBreakHasNoInk(prev.block.text);
      JoinLands(e, index - 1, prev.id, Text(joined), prev.block.text + "\n");
    }
  }

  lemma TextForwardLands(e: Editor, index: nat)
    requires Valid(e) && index + 1 < |e.blocks| && e.blocks[index].block.Text?
    ensures Lands(MergeTextForward(e, index), Content(e.blocks[..index + 1]))
  {
    hide Lands, Valid, Splice;
    var cur, next := e.blocks[index], e.blocks[index + 1];
    assert "" + next.block.text == next.block.text;
    var text :=
      if next.block.Check? then cur.block.text + next.block.text
      else if cur.block.text == "" then next.block.text
      else cur.block.text + "\n" + next.block.text;
    assert text[..|cur.block.text|] == cur.block.text;
    JoinLands(e, index, cur.id, Text(text), cur.block.text);
  }

  lemma LabelBackLands(e: Editor, index: nat)
    requires Valid(e) && index < |e.blocks| && e.blocks[index].block.Check?
    ensures Lands(MergeLabelBack(e, index), Content(e.blocks[..index]))
  {
    hide Lands;
    MergeLabelBackKeeps(e, index);
    var cur := e.blocks[index];
    if cur.block.text == "" {
      RemoveLands(e, index);
    } else if index == 0 {
      var id := e.lastId + 1;
      FirstLands(e, 0, 1, [EditorBlock(id, Text(cur.block.text))], Focus(id, At(0)), id, "");
      assert Content(e.blocks[..0]) + Ink("") == Content(e.blocks[..0]);
    } else {
      LabelJoinsAbove(e, index);
    }
  }

  lemma LabelJoinsAbove(e: Editor, index: nat)
    requires Valid(e) && 0 < index < |e.blocks| && e.blocks[index].block.Check? && e.blocks[index].block.text != ""
    ensures Lands(MergeLabelBack(e, index), Content(e.blocks[..index]))
  {
    hide Lands, Valid, Splice;
    var cur, prev := e.blocks[index], e.blocks[index - 1];
    var was := prev.block.text;
    var glued := prev.block.Check? || was == "";
    var upTo := if glued then was else was + "\n";
    var joined := upTo + cur.block.text;
    LineBreakHasNoInk(was);
    assert joined[..|upTo|] == upTo;
    JoinLands(e, index - 1, prev.id, WithText(prev.block, joined), upTo);
  }

  lemma LabelForwardLands(e: Editor, index: nat)
    requires Valid(e) && index + 1 < |e.blocks| && e.blocks[index].block.Check?
    ensures Lands(MergeLabelForward(e, index), Content(e.blocks[..index + 1]))
  {
    hide Lands, Valid, Splice;
    var cur, next := e.blocks[index], e.blocks[index + 1];
    if next.block.Text? {
      AbsorbLands(e, index);
    } else {
      var text := cur.block.text + next.block.text;
      assert text[..|cur.block.text|] == cur.block.text;
      JoinLands(e, index, cur.id, WithText(cur.block, text), cur.block.text);
    }
  }

  /** Any edit that does something leaves the caret, wherever it now is, after the same ink as before. */
  lemma CaretStaysInPlace(e: Editor, edit: Edit)
    requires Valid(e) && Apply(e, edit) != e
    ensures Lands(Apply(e, edit), InkAtEdit(e, edit))
  {
    hide Lands, Valid;
    match edit {
      case Insert(origin) => InsertLands(e, origin);
      case Enter(i, caret) => EnterLands(e, i, caret);
      case BackspaceInText(i) => TextBackLands(e, i);
      case DeleteInText(i) => TextForwardLands(e, i);
      case BackspaceInLabel(i) => LabelBackLands(e, i);
      case DeleteInLabel(i) => LabelForwardLands(e, i);
    }
  }

  /** Only removing an empty first box leaves no focus. */
  lemma FocusIsLostOnlyAtTheTop(e: Editor, edit: Edit)
    requires Apply(e, edit) != e
    ensures Apply(e, edit).focus.None? <==>
            edit == BackspaceInLabel(0) && e.blocks != [] && e.blocks[0].block == Check(e.blocks[0].block.checked, "")
  {
    hide IndexOf, CutPieces, TrimNewlinesEnd, TrimNewlinesStart;
  }
}
