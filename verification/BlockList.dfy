/** The edits as the component performs them, on its own list, focus and id counter. */
module BlockList {
  import opened Wrappers
  import opened Text
  import opened Markdown
  import opened BlockEdits
  import opened TypedChecks

  class EditingSurface {
    var blocks: seq<EditorBlock>
    var pendingFocus: Option<Focus>
    var lastId: nat

    function State(): Editor
      reads this
    {
      Editor(blocks, pendingFocus, lastId)
    }

    constructor (blocks: seq<EditorBlock>, lastId: nat)
      ensures State() == Editor(blocks, None, lastId)
    {
      this.blocks, this.pendingFocus, this.lastId := blocks, None, lastId;
    }

    method BlockId() returns (id: nat)
      modifies `lastId
      ensures id == lastId == old(lastId) + 1
    {
      lastId := lastId + 1;
      id := lastId;
    }

    method SpliceBlocks(index: nat, remove: nat, pieces: seq<EditorBlock>)
      requires index + remove <= |blocks|
      modifies this
      ensures State() == Splice(old(blocks), index, remove, pieces, old(pendingFocus), old(lastId))
    {
      var next := blocks[..index] + pieces + blocks[index + remove..];
      if |next| == 0 {
        var id := BlockId();
        next := [EditorBlock(id, Text(""))];
      }
      blocks := next;
    }

    /** Turns pieces into blocks: a leading text keeps the paragraph's id, the last box gets the focus. */
    method GiveIds(pieces: seq<Block>, id: nat) returns (withIds: seq<EditorBlock>, focus: Option<Focus>)
      modifies `lastId
      ensures withIds == WithIds(pieces, id, old(lastId)) && focus == LastBox(withIds)
      ensures lastId == old(lastId) + if pieces != [] && pieces[0].Text? then |withIds| - 1 else |withIds|
    {
      hide WithIds, LastBox;
      withIds, focus := [], None;
      NothingYet(id, lastId);
      for i := 0 to |pieces|
        invariant |withIds| == i && withIds == WithIds(pieces[..i], id, old(lastId))
        invariant focus == LastBox(withIds)
        invariant lastId == old(lastId) + if i > 0 && pieces[0].Text? then i - 1 else i
      {
        var piece := pieces[i];
        var pieceId := id;
        if !(i == 0 && piece.Text?) {
          pieceId := BlockId();
        }
        if piece.Check? {
          focus := Some(Focus(pieceId, End));
        }
        NumberNext(pieces, i, id, old(lastId));
        LastBoxOfMore(withIds, EditorBlock(pieceId, piece));
        withIds := withIds + [EditorBlock(pieceId, piece)];
      }
      assert pieces[..|pieces|] == pieces;
    }

    method ChangeParagraph(index: nat, text: string)
      requires index < |blocks|
      modifies this
      ensures State() == ChangeText(old(State()), index, text)
      ensures old(Valid(State()) && pendingFocus.None?) ==> Valid(State())
    {
      hide Exploded, WithIds, LastBox, Valid, Splice;
      if Valid(State()) && pendingFocus.None? {
        ChangeTextKeepsIds(State(), index, text);
      }
      var b := blocks[index];
      if b.block.Check? {
        return;
      }
      var exploded := ExplodeChecks(text);
      if exploded.None? {
        blocks := blocks[index := EditorBlock(b.id, Text(text))];
        return;
      }
      var withIds, focus := GiveIds(exploded.value, b.id);
      pendingFocus := focus;
      SpliceBlocks(index, 1, withIds);
    }

    method InsertBoxAt(index: nat)
      requires index <= |blocks|
      modifies this
      ensures State() == InsertCheckAt(old(State()), index)
      ensures old(Valid(State())) ==> Kept(old(State()), State())
    {
      hide Valid, Kept;
      if Valid(State()) {
        InsertCheckAtKeeps(State(), index);
      }
      var id := BlockId();
      pendingFocus := Some(Focus(id, Unset));
      SpliceBlocks(index, 0, [EditorBlock(id, Check(false, ""))]);
    }

    method InsertBox(origin: Option<(nat, Option<nat>)>)
      modifies this
      ensures State() == InsertCheck(old(State()), origin)
      ensures old(Valid(State())) ==> Kept(old(State()), State())
    {
      hide Valid, Kept, TrimNewlinesEnd, TrimNewlinesStart, Splice;
      if Valid(State()) {
        InsertCheckKeeps(State(), origin);
      }
      var index := |blocks|;
      if origin.Some? {
        index := IndexOf(blocks, origin.value.0);
      }
      if index == |blocks| {
        InsertBoxAt(|blocks|);
        return;
      }
      var b := blocks[index];
      if b.block.Check? {
        InsertBoxAt(index + 1);
        return;
      }
      var text := b.block.text;
      var caret := if origin.value.1.Some? then Min(origin.value.1.value, |text|) else |text|;
      var before := TrimNewlinesEnd(text[..caret]);
      var after := TrimNewlinesStart(text[caret..]);
      var id := BlockId();
      pendingFocus := Some(Focus(id, Unset));
      var pieces: seq<EditorBlock> := [];
      if before != "" {
        pieces := pieces + [EditorBlock(b.id, Text(before))];
      }
      pieces := pieces + [EditorBlock(id, Check(false, ""))];
      if after != "" {
        var below := BlockId();
        pieces := pieces + [EditorBlock(below, Text(after))];
      }
      assert pieces == CutPieces(b.id, before, after, id);
      SpliceBlocks(index, 1, pieces);
    }

    method SplitBox(index: nat, start: nat, end: nat)
      requires index < |blocks| && start <= end <= |blocks[index].block.text|
      modifies this
      ensures State() == SplitCheckAt(old(State()), index, start, end)
      ensures old(Valid(State())) && start == end ==> Kept(old(State()), State())
    {
      hide Valid, Kept;
      if Valid(State()) && start == end {
        SplitStays(State(), index, start);
      }
      var b := blocks[index];
      if b.block.Text? {
        return;
      }
      var id := BlockId();
      pendingFocus := Some(Focus(id, At(0)));
      SpliceBlocks(index, 1, [EditorBlock(b.id, Check(b.block.checked, b.block.text[..start])),
                              EditorBlock(id, Check(false, b.block.text[end..]))]);
    }

    method Remove(index: nat)
      requires index < |blocks|
      modifies this
      ensures State() == RemoveAt(old(State()), index)
      ensures old(Valid(State()) && blocks[index].block.text == "") ==> Kept(old(State()), State())
    {
      hide Valid, Kept;
      if Valid(State()) && blocks[index].block.text == "" {
        RemoveKeeps(State(), index);
      }
      pendingFocus := if index > 0 then Some(Focus(blocks[index - 1].id, End)) else None;
      SpliceBlocks(index, 1, []);
    }

    method Exit(index: nat)
      requires index < |blocks|
      modifies this
      ensures State() == ExitChecklistAt(old(State()), index)
      ensures old(Valid(State()) && blocks[index].block.text == "") ==> Kept(old(State()), State())
    {
      hide Valid, Kept;
      if Valid(State()) && blocks[index].block.text == "" {
        ExitKeeps(State(), index);
      }
      var id := BlockId();
      pendingFocus := Some(Focus(id, Unset));
      blocks := blocks[index := EditorBlock(id, Text(""))];
    }

    method EnterPressed(index: nat, start: nat, end: nat)
      requires index < |blocks| && start <= end <= |blocks[index].block.text|
      modifies this
      ensures State() == PressEnter(old(State()), index, start, end)
      ensures old(Valid(State())) ==> Kept(WithoutSelection(old(State()), index, start, end), State())
    {
      hide Valid, Kept;
      if Valid(State()) {
        EnterOnSelectionKeeps(State(), index, start, end);
      }
      var b := blocks[index].block;
      if b.Text? {
        return;
      }
      if b.text == "" {
        Exit(index);
      } else if start == |b.text| && end == start {
        InsertBoxAt(index + 1);
      } else {
        SplitBox(index, start, end);
      }
    }

    /** A box takes the first line of the paragraph below; blank lines after it go. */
    method Absorb(index: nat)
      requires index + 1 < |blocks| && blocks[index].block.Check? && blocks[index + 1].block.Text?
      modifies this
      ensures State() == AbsorbParagraph(old(State()), index)
      ensures old(Valid(State())) ==> Kept(old(State()), State())
    {
      hide Valid, Kept;
      if Valid(State()) {
        AbsorbKeeps(State(), index);
      }
      var box, paragraph := blocks[index], blocks[index + 1];
      var lines := Split(paragraph.block.text);
      var first := lines[0];
      var rest := TrimFront(lines[1..]);
      pendingFocus := Some(Focus(box.id, At(|box.block.text|)));
      var merged := EditorBlock(box.id, WithText(box.block, box.block.text + first));
      if |rest| > 0 {
        SpliceBlocks(index, 2, [merged, EditorBlock(paragraph.id, Text(Join(rest)))]);
      } else {
        SpliceBlocks(index, 2, [merged]);
      }
    }

    method TextBack(index: nat)
      requires index < |blocks|
      modifies this
      ensures State() == MergeTextBack(old(State()), index)
      ensures old(Valid(State())) ==> Kept(old(State()), State())
    {
      hide Valid, Kept;
      if Valid(State()) {
        MergeTextBackKeeps(State(), index);
      }
      var cur := blocks[index];
      if cur.block.Check? || index == 0 {
        return;
      }
      var prev := blocks[index - 1];
      if cur.block.text == "" {
        Remove(index);
      } else if prev.block.Text? {
        if prev.block.text == "" {
          pendingFocus := Some(Focus(cur.id, At(0)));
          SpliceBlocks(index - 1, 1, []);
          return;
        }
        pendingFocus := Some(Focus(prev.id, At(|prev.block.text| + 1)));
        SpliceBlocks(index - 1, 2, [EditorBlock(prev.id, Text(prev.block.text + "\n" + cur.block.text))]);
      } else {
        Absorb(index - 1);
      }
    }

    method TextForward(index: nat)
      requires index < |blocks|
      modifies this
      ensures State() == MergeTextForward(old(State()), index)
      ensures old(Valid(State())) ==> Kept(old(State()), State())
    {
      hide Valid, Kept;
      if Valid(State()) {
        MergeTextForwardKeeps(State(), index);
      }
      var cur := blocks[index];
      if cur.block.Check? || index + 1 == |blocks| {
        return;
      }
      var next := blocks[index + 1];
      pendingFocus := Some(Focus(cur.id, At(|cur.block.text|)));
      if next.block.Text? {
        var text := if cur.block.text == "" then next.block.text else cur.block.text + "\n" + next.block.text;
        SpliceBlocks(index, 2, [EditorBlock(cur.id, Text(text))]);
      } else {
        SpliceBlocks(index, 2, [EditorBlock(cur.id, Text(cur.block.text + next.block.text))]);
      }
    }

    method LabelBack(index: nat)
      requires index < |blocks|
      modifies this
      ensures State() == MergeLabelBack(old(State()), index)
      ensures old(Valid(State())) ==> Kept(old(State()), State())
    {
      hide Valid, Kept;
      if Valid(State()) {
        MergeLabelBackKeeps(State(), index);
      }
      var cur := blocks[index];
      if cur.block.Text? {
        return;
      }
      if cur.block.text == "" {
        Remove(index);
        return;
      }
      if index == 0 {
        var id := BlockId();
        pendingFocus := Some(Focus(id, At(0)));
        SpliceBlocks(index, 1, [EditorBlock(id, Text(cur.block.text))]);
        return;
      }
      var prev := blocks[index - 1];
      if prev.block.Check? {
        pendingFocus := Some(Focus(prev.id, At(|prev.block.text|)));
        SpliceBlocks(index - 1, 2, [EditorBlock(prev.id, WithText(prev.block, prev.block.text + cur.block.text))]);
        return;
      }
      var text := if prev.block.text == "" then cur.block.text else prev.block.text + "\n" + cur.block.text;
      assert "" + cur.block.text == cur.block.text;
      pendingFocus := Some(Focus(prev.id, At(if prev.block.text == "" then 0 else |prev.block.text| + 1)));
      SpliceBlocks(index - 1, 2, [EditorBlock(prev.id, Text(text))]);
    }

    method LabelForward(index: nat)
      requires index < |blocks|
      modifies this
      ensures State() == MergeLabelForward(old(State()), index)
      ensures old(Valid(State())) ==> Kept(old(State()), State())
    {
      hide Valid, Kept;
      if Valid(State()) {
        MergeLabelForwardKeeps(State(), index);
      }
      var cur := blocks[index];
      if cur.block.Text? || index + 1 == |blocks| {
        return;
      }
      var next := blocks[index + 1];
      if next.block.Text? {
        Absorb(index);
        return;
      }
      pendingFocus := Some(Focus(cur.id, At(|cur.block.text|)));
      SpliceBlocks(index, 2, [EditorBlock(cur.id, WithText(cur.block, cur.block.text + next.block.text))]);
    }
  }

  lemma SplitStays(e: Editor, index: nat, caret: nat)
    requires Valid(e) && index < |e.blocks| && caret <= |e.blocks[index].block.text|
    ensures Kept(e, SplitCheckAt(e, index, caret, caret))
  {
    if e.blocks[index].block.Check? {
      SplitKeeps(e, index, caret);
    }
  }

  lemma LastBoxOfMore(blocks: seq<EditorBlock>, b: EditorBlock)
    ensures LastBox(blocks + [b]) == if b.block.Check? then Some(Focus(b.id, End)) else LastBox(blocks)
  {
    assert (blocks + [b])[..|blocks|] == blocks;
  }

  lemma {:induction false} NumberedMore(pieces: seq<Block>, piece: Block, lastId: nat)
    ensures Numbered(pieces + [piece], lastId) ==
            Numbered(pieces, lastId) + [EditorBlock(lastId + 1 + |pieces|, piece)]
  {
    hide Numbered;
  }

  /** One piece more takes the next number, unless it leads and is text. */
  lemma NumberNext(pieces: seq<Block>, i: nat, id: nat, lastId: nat)
    requires i < |pieces|
    ensures WithIds(pieces[..i + 1], id, lastId) ==
            WithIds(pieces[..i], id, lastId)
            + [EditorBlock(if i == 0 && pieces[0].Text? then id
                           else lastId + 1 + if pieces[0].Text? then i - 1 else i, pieces[i])]
  {
    hide Numbered;
    var done, more := pieces[..i], pieces[..i + 1];
    assert more == done + [pieces[i]];
    NumberedNothing(lastId);
    if !pieces[0].Text? {
      NumberedMore(done, pieces[i], lastId);
    } else if i > 0 {
      assert more[1..] == done[1..] + [pieces[i]];
      NumberedMore(done[1..], pieces[i], lastId);
    } else {
      assert done == [] && more[1..] == [];
    }
  }

  lemma NumberedNothing(lastId: nat)
    ensures Numbered([], lastId) == []
  {
  }

  lemma NothingYet(id: nat, lastId: nat)
    ensures WithIds([], id, lastId) == [] && LastBox([]) == None
  {
  }
}
