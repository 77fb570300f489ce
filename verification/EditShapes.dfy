/** What each keyboard edit makes of lines and labels: which become one, which are cut, and where. */
module EditShapes {
  import opened Wrappers
  import opened Sequences
  import opened Text
  import opened Markdown
  import opened BlockEdits
  import opened TypedChecks

  // ----- Lines of joined texts -----

  lemma SplitStep(c: char, rest: string)
    ensures Split([c] + rest) ==
            if c == '\n' then [""] + Split(rest) else [[c] + Split(rest)[0]] + Split(rest)[1..]
  {
    assert ([c] + rest)[1..] == rest;
  }

  lemma {:induction false} LinesOfStacked(a: string, b: string)
    ensures Split(a + "\n" + b) == Split(a) + Split(b)
  {
    var s := a + "\n" + b;
    if a == "" {
      assert s == ['\n'] + b;
      SplitStep('\n', b);
    } else {
      LinesOfStacked(a[1..], b);
      var rest := Split(a[1..]);
      assert s == [a[0]] + (a[1..] + "\n" + b) && a == [a[0]] + a[1..];
      SplitStep(a[0], a[1..] + "\n" + b);
      SplitStep(a[0], a[1..]);
      hide Split;
      if a[0] == '\n' {
        Associate([""], rest, Split(b));
      } else {
        TailOfConcat(rest, Split(b));
        Associate([[a[0]] + rest[0]], rest[1..], Split(b));
      }
    }
  }

  /** The last line of the one and the first of the other become one line. */
  function Glued(upper: seq<string>, lower: seq<string>): seq<string>
    requires upper != [] && lower != []
  {
    upper[..|upper| - 1] + [upper[|upper| - 1] + lower[0]] + lower[1..]
  }

  lemma {:induction false} LinesOfGlued(a: string, b: string)
    ensures Split(a + b) == Glued(Split(a), Split(b))
  {
    var s, lower := a + b, Split(b);
    if a == "" {
      assert s == b && "" + lower[0] == lower[0];
      assert [] + [lower[0]] + lower[1..] == lower;
    } else {
      LinesOfGlued(a[1..], b);
      var rest := Split(a[1..]);
      assert s[0] == a[0] && s[1..] == a[1..] + b;
      if a[0] == '\n' {
        GluedBelow([""], rest, lower);
      } else {
        GluedFirst(a[0], rest, lower);
      }
    }
  }

  lemma GluedBelow(head: seq<string>, upper: seq<string>, lower: seq<string>)
    requires upper != [] && lower != []
    ensures Glued(head + upper, lower) == head + Glued(upper, lower)
  {
    var n := |upper| - 1;
    assert (head + upper)[..|head| + n] == head + upper[..n];
    Reassociate(head, upper[..n], [upper[n] + lower[0]], lower[1..]);
  }

  lemma GluedFirst(c: char, upper: seq<string>, lower: seq<string>)
    requires upper != [] && lower != []
    ensures Glued([[c] + upper[0]] + upper[1..], lower) ==
            [[c] + Glued(upper, lower)[0]] + Glued(upper, lower)[1..]
  {
    if |upper| == 1 {
      Associate([c], upper[0], lower[0]);
      assert upper[1..] == [] && [[c] + upper[0]] + [] == [[c] + upper[0]];
      assert Glued(upper, lower) == [upper[0] + lower[0]] + lower[1..];
      assert Glued([[c] + upper[0]], lower) == [[c] + upper[0] + lower[0]] + lower[1..];
    } else {
      assert upper == [upper[0]] + upper[1..];
      GluedBelow([upper[0]], upper[1..], lower);
      GluedBelow([[c] + upper[0]], upper[1..], lower);
    }
  }

  // ----- Results of edits -----

  /** `added` blocks stand at `index` for the `removed` ones, everything else where it was. */
  predicate Replaced(e: Editor, r: Editor, index: nat, removed: nat, added: nat) {
    && index + removed <= |e.blocks| && |r.blocks| == |e.blocks| - removed + added
    && r.blocks[..index] == e.blocks[..index]
    && r.blocks[index + added..] == e.blocks[index + removed..]
  }

  /** The focus on the block at `index`, its caret after `upTo`. */
  predicate CaretAfter(r: Editor, index: nat, upTo: string) {
    && index < |r.blocks|
    && r.focus == Some(Focus(r.blocks[index].id, At(|upTo|)))
    && upTo <= r.blocks[index].block.text
  }

  lemma SpliceReplaces(e: Editor, index: nat, removed: nat, pieces: seq<EditorBlock>, focus: Option<Focus>, lastId: nat)
    requires index + removed <= |e.blocks|
    requires pieces != [] || removed < |e.blocks|
    ensures var r := Splice(e.blocks, index, removed, pieces, focus, lastId);
      && Replaced(e, r, index, removed, |pieces|) && r.focus == focus
      && forall k :: 0 <= k < |pieces| ==> r.blocks[index + k] == pieces[k]
  {
    var next := e.blocks[..index] + pieces + e.blocks[index + removed..];
    assert next[..index] == e.blocks[..index] && next[index + |pieces|..] == e.blocks[index + removed..];
  }

  lemma SpliceOne(e: Editor, index: nat, removed: nat, piece: EditorBlock, focus: Option<Focus>, lastId: nat)
    requires index + removed <= |e.blocks|
    ensures var r := Splice(e.blocks, index, removed, [piece], focus, lastId);
      Replaced(e, r, index, removed, 1) && r.focus == focus && r.blocks[index] == piece
  {
    SpliceReplaces(e, index, removed, [piece], focus, lastId);
    hide Splice;
    assert [piece][0] == piece;
    assert Splice(e.blocks, index, removed, [piece], focus, lastId).blocks[index + 0] == piece;
  }

  lemma SpliceTwo(e: Editor, index: nat, removed: nat, top: EditorBlock, bottom: EditorBlock, focus: Option<Focus>, lastId: nat)
    requires index + removed <= |e.blocks|
    ensures var r := Splice(e.blocks, index, removed, [top, bottom], focus, lastId);
      Replaced(e, r, index, removed, 2) && r.focus == focus && r.blocks[index] == top && r.blocks[index + 1] == bottom
  {
    SpliceReplaces(e, index, removed, [top, bottom], focus, lastId);
    hide Splice;
    var r := Splice(e.blocks, index, removed, [top, bottom], focus, lastId);
    assert [top, bottom][0] == top && [top, bottom][1] == bottom;
    assert r.blocks[index + 0] == top && r.blocks[index + 1] == bottom;
  }

  /** The first line of the paragraph below the box joins its label; blank lines after it go. */
  predicate Absorbed(e: Editor, r: Editor, index: nat)
    requires index + 1 < |e.blocks| && e.blocks[index].block.Check? && e.blocks[index + 1].block.Text?
  {
    var box, paragraph := e.blocks[index], e.blocks[index + 1];
    var lines := Split(paragraph.block.text);
    exists k :: 1 <= k <= |lines| && FirstKept(lines, k)
      && Replaced(e, r, index, 2, if k < |lines| then 2 else 1)
      && r.blocks[index] == EditorBlock(box.id, Check(box.block.checked, box.block.text + lines[0]))
      && (k < |lines| ==>
            && r.blocks[index + 1].id == paragraph.id && r.blocks[index + 1].block.Text?
            && Split(r.blocks[index + 1].block.text) == lines[k..])
      && CaretAfter(r, index, box.block.text)
  }

  /** All lines between the first and the `k`-th are blank, and the `k`-th, if there is one, is not. */
  predicate FirstKept(lines: seq<string>, k: int)
    requires 1 <= k <= |lines|
  {
    (forall i :: 1 <= i < k ==> Blank(lines[i])) && (k < |lines| ==> !Blank(lines[k]))
  }

  lemma KeptBelow(lines: seq<string>) returns (k: nat)
    requires lines != []
    ensures 1 <= k <= |lines| && FirstKept(lines, k) && DropFront(lines[1..]) == lines[k..]
  {
    hide Blank, DropFront;
    var tail := lines[1..];
    var j := FrontCut(tail);
    k := j + 1;
    assert tail[j..] == lines[k..];
    forall i | 1 <= i < k ensures Blank(lines[i]) {
      assert tail[..j][i - 1] == lines[i] && lines[i] in tail[..j];
    }
  }

  lemma LowerLines(lines: seq<string>, k: nat)
    requires k < |lines| && Unbroken(lines)
    ensures Split(Join(lines[k..])) == lines[k..]
  {
    assert forall line :: line in lines[k..] ==> line in lines;
    SplitJoin(lines[k..]);
  }

  lemma AbsorbShape(e: Editor, index: nat)
    requires index + 1 < |e.blocks| && e.blocks[index].block.Check? && e.blocks[index + 1].block.Text?
    ensures Absorbed(e, AbsorbParagraph(e, index), index)
  {
    var box, paragraph := e.blocks[index], e.blocks[index + 1];
    var lines := Split(paragraph.block.text);
    var k := KeptBelow(lines);
    hide Splice, Blank, Split, FirstKept, DropFront;
    var merged := EditorBlock(box.id, WithText(box.block, box.block.text + lines[0]));
    var focus := Some(Focus(box.id, At(|box.block.text|)));
    var r := AbsorbParagraph(e, index);
    if k < |lines| {
      LowerLines(lines, k);
      SpliceTwo(e, index, 2, merged, EditorBlock(paragraph.id, Text(Join(lines[k..]))), focus, e.lastId);
    } else {
      SpliceOne(e, index, 2, merged, focus, e.lastId);
    }
    assert Replaced(e, r, index, 2, if k < |lines| then 2 else 1);
  }

  /** Backspace at the start of a paragraph. */
  lemma TextBackShape(e: Editor, index: nat)
    requires index < |e.blocks| && e.blocks[index].block.Text?
    ensures var r, cur := MergeTextBack(e, index), e.blocks[index];
      if index == 0 then r == e
      else
        var prev := e.blocks[index - 1];
        if cur.block.text == "" then
          Replaced(e, r, index, 1, 0) && r.focus == Some(Focus(prev.id, End))
        else if prev.block.Check? then Absorbed(e, r, index - 1)
        else if prev.block.text == "" then Replaced(e, r, index - 1, 1, 0) && CaretAfter(r, index - 1, "")
        else
          && Replaced(e, r, index - 1, 2, 1)
          && r.blocks[index - 1].id == prev.id && r.blocks[index - 1].block.Text?
          && Split(r.blocks[index - 1].block.text) == Split(prev.block.text) + Split(cur.block.text)
          && CaretAfter(r, index - 1, prev.block.text + "\n")
  {
    if index > 0 {
      hide Splice, Split, Absorbed;
      var prev, cur := e.blocks[index - 1], e.blocks[index];
      if cur.block.text == "" {
        SpliceReplaces(e, index, 1, [], Some(Focus(prev.id, End)), e.lastId);
      } else if prev.block.Check? {
        AbsorbShape(e, index - 1);
      } else if prev.block.text == "" {
        SpliceReplaces(e, index - 1, 1, [], Some(Focus(cur.id, At(0))), e.lastId);
        assert MergeTextBack(e, index).blocks[index - 1..][0] == cur;
      } else {
        LinesOfStacked(prev.block.text, cur.block.text);
        SpliceOne(e, index - 1, 2, EditorBlock(prev.id, Text(prev.block.text + "\n" + cur.block.text)),
                       Some(Focus(prev.id, At(|prev.block.text| + 1))), e.lastId);
      }
    }
  }

  /** Delete at the end of a paragraph. */
  lemma TextForwardShape(e: Editor, index: nat)
    requires index < |e.blocks| && e.blocks[index].block.Text?
    ensures var r, cur := MergeTextForward(e, index), e.blocks[index];
      if index + 1 == |e.blocks| then r == e
      else
        var next := e.blocks[index + 1];
        var upper, lower := Split(cur.block.text), Split(next.block.text);
        && Replaced(e, r, index, 2, 1)
        && r.blocks[index].id == cur.id && r.blocks[index].block.Text?
        && Split(r.blocks[index].block.text) ==
             (if next.block.Check? then Glued(upper, lower) else if cur.block.text == "" then lower else upper + lower)
        && CaretAfter(r, index, cur.block.text)
  {
    if index + 1 < |e.blocks| {
      hide Splice, Split, Glued;
      var cur, next := e.blocks[index], e.blocks[index + 1];
      var text :=
        if next.block.Check? then cur.block.text + next.block.text
        else if cur.block.text == "" then next.block.text
        else cur.block.text + "\n" + next.block.text;
      LinesOfGlued(cur.block.text, next.block.text);
      LinesOfStacked(cur.block.text, next.block.text);
      SpliceOne(e, index, 2, EditorBlock(cur.id, Text(text)), Some(Focus(cur.id, At(|cur.block.text|))), e.lastId);
    }
  }

  lemma LabelUpShape(e: Editor, index: nat)
    requires 0 < index < |e.blocks| && e.blocks[index].block.Check? && e.blocks[index].block.text != ""
    ensures var r, cur, prev := MergeLabelBack(e, index), e.blocks[index], e.blocks[index - 1];
      && Replaced(e, r, index - 1, 2, 1) && r.blocks[index - 1].id == prev.id
      && (match prev.block
          case Check(checked, text) =>
            && r.blocks[index - 1].block == Check(checked, text + cur.block.text)
            && CaretAfter(r, index - 1, text)
          case Text(text) =>
            && r.blocks[index - 1].block.Text?
            && Split(r.blocks[index - 1].block.text) ==
                 (if text == "" then Split(cur.block.text) else Split(text) + Split(cur.block.text))
            && CaretAfter(r, index - 1, if text == "" then "" else text + "\n"))
  {
    hide Split, Splice;
    var cur, prev := e.blocks[index], e.blocks[index - 1];
    var was := prev.block.text;
    var upTo := if prev.block.Check? || was == "" then was else was + "\n";
    var joined := upTo + cur.block.text;
    LinesOfStacked(was, cur.block.text);
    assert "" + cur.block.text == cur.block.text;
    SpliceOne(e, index - 1, 2, EditorBlock(prev.id, WithText(prev.block, joined)), Some(Focus(prev.id, At(|upTo|))), e.lastId);
    assert CaretAfter(MergeLabelBack(e, index), index - 1, upTo);
  }

  /** Backspace at the start of a label. */
  lemma LabelBackShape(e: Editor, index: nat)
    requires index < |e.blocks| && e.blocks[index].block.Check?
    ensures var r, cur := MergeLabelBack(e, index), e.blocks[index];
      if cur.block.text == "" then
        if |e.blocks| == 1 then r.blocks == [EditorBlock(e.lastId + 1, Text(""))] && r.focus == None
        else
          && Replaced(e, r, index, 1, 0)
          && r.focus == (if index > 0 then Some(Focus(e.blocks[index - 1].id, End)) else None)
      else if index == 0 then
        && Replaced(e, r, 0, 1, 1) && r.blocks[0] == EditorBlock(e.lastId + 1, Text(cur.block.text))
        && CaretAfter(r, 0, "")
      else
        var prev := e.blocks[index - 1];
        && Replaced(e, r, index - 1, 2, 1) && r.blocks[index - 1].id == prev.id
        && (match prev.block
            case Check(checked, text) =>
              && r.blocks[index - 1].block == Check(checked, text + cur.block.text)
              && CaretAfter(r, index - 1, text)
            case Text(text) =>
              && r.blocks[index - 1].block.Text?
              && Split(r.blocks[index - 1].block.text) ==
                   (if text == "" then Split(cur.block.text) else Split(text) + Split(cur.block.text))
              && CaretAfter(r, index - 1, if text == "" then "" else text + "\n"))
  {
    hide Split;
    var cur := e.blocks[index];
    if cur.block.text == "" {
      if |e.blocks| > 1 {
        hide Splice;
        SpliceReplaces(e, index, 1, [], if index > 0 then Some(Focus(e.blocks[index - 1].id, End)) else None, e.lastId);
      }
    } else if index == 0 {
      hide Splice;
      var id := e.lastId + 1;
      SpliceOne(e, 0, 1, EditorBlock(id, Text(cur.block.text)), Some(Focus(id, At(0))), id);
    } else {
      hide Replaced, MergeLabelBack, CaretAfter;
      LabelUpShape(e, index);
    }
  }

  /** Delete at the end of a label. */
  lemma LabelForwardShape(e: Editor, index: nat)
    requires index < |e.blocks| && e.blocks[index].block.Check?
    ensures var r, cur := MergeLabelForward(e, index), e.blocks[index];
      if index + 1 == |e.blocks| then r == e
      else
        match e.blocks[index + 1].block
        case Text(_) => Absorbed(e, r, index)
        case Check(_, text) =>
          && Replaced(e, r, index, 2, 1)
          && r.blocks[index] == EditorBlock(cur.id, Check(cur.block.checked, cur.block.text + text))
          && CaretAfter(r, index, cur.block.text)
  {
    if index + 1 < |e.blocks| {
      hide Splice, Absorbed;
      var cur, next := e.blocks[index], e.blocks[index + 1];
      if next.block.Text? {
        AbsorbShape(e, index);
      } else {
        SpliceOne(e, index, 2, EditorBlock(cur.id, WithText(cur.block, cur.block.text + next.block.text)),
                       Some(Focus(cur.id, At(|cur.block.text|))), e.lastId);
      }
    }
  }

  /** A new unticked box, empty, with a new id and the focus. */
  predicate FreshBox(e: Editor, r: Editor, index: nat) {
    && index < |r.blocks| && r.blocks[index].block == Check(false, "") && r.blocks[index].id == e.lastId + 1
    && r.focus == Some(Focus(e.lastId + 1, Unset))
  }

  lemma InsertAtShape(e: Editor, index: nat)
    requires index <= |e.blocks|
    ensures var r := InsertCheckAt(e, index);
      Replaced(e, r, index, 0, 1) && FreshBox(e, r, index)
  {
    hide Splice;
    var id := e.lastId + 1;
    SpliceOne(e, index, 0, EditorBlock(id, Check(false, "")), Some(Focus(id, Unset)), id);
  }

  /** Enter in a label, what is selected being dropped. */
  lemma EnterShape(e: Editor, index: nat, start: nat, end: nat)
    requires index < |e.blocks| && e.blocks[index].block.Check? && start <= end <= |e.blocks[index].block.text|
    ensures var r, b := PressEnter(e, index, start, end), e.blocks[index];
      if b.block.text == "" then
        && Replaced(e, r, index, 1, 1) && r.blocks[index] == EditorBlock(e.lastId + 1, Text(""))
        && r.focus == Some(Focus(e.lastId + 1, Unset))
      else if start == |b.block.text| then Replaced(e, r, index + 1, 0, 1) && FreshBox(e, r, index + 1)
      else
        && Replaced(e, r, index, 1, 2)
        && var top, bottom := r.blocks[index], r.blocks[index + 1];
        && top.id == b.id && bottom.id == e.lastId + 1
        && top.block.Check? && top.block.checked == b.block.checked && bottom.block.Check? && !bottom.block.checked
        && |top.block.text| == start
        && top.block.text + b.block.text[start..end] + bottom.block.text == b.block.text
        && CaretAfter(r, index + 1, "")
  {
    hide Splice;
    var b := e.blocks[index];
    if b.block.text == "" {
      var r := PressEnter(e, index, start, end);
      assert r.blocks[..index] == e.blocks[..index] && r.blocks[index + 1..] == e.blocks[index + 1..];
    } else if start == |b.block.text| {
      InsertAtShape(e, index + 1);
    } else {
      var id := e.lastId + 1;
      CutInThree(b.block.text, start, end);
      SpliceTwo(e, index, 1, EditorBlock(b.id, Check(b.block.checked, b.block.text[..start])),
                EditorBlock(id, Check(false, b.block.text[end..])), Some(Focus(id, At(0))), id);
    }
  }

  lemma {:induction false} TrimmedEndShape(s: string)
    ensures var t := TrimNewlinesEnd(s);
      t <= s && OnlyBreaks(s[|t|..]) && (t != "" ==> t[|t| - 1] != '\n')
  {
    if s != "" && s[|s| - 1] == '\n' {
      var init := s[..|s| - 1];
      TrimmedEndShape(init);
      var n := |TrimNewlinesEnd(init)|;
      forall i | 0 <= i < |s| - n ensures s[n..][i] == '\n' {
        assert i < |init| - n ==> s[n..][i] == init[n..][i];
      }
    }
  }

  lemma {:induction false} TrimmedStartShape(s: string)
    ensures var t := TrimNewlinesStart(s);
      |t| <= |s| && t == s[|s| - |t|..] && OnlyBreaks(s[..|s| - |t|]) && (t != "" ==> t[0] != '\n')
  {
    if s != "" && s[0] == '\n' {
      TrimmedStartShape(s[1..]);
      var n := |s| - |TrimNewlinesStart(s)|;
      assert s[1..][n - 1..] == s[n..];
      forall i | 0 <= i < n ensures s[..n][i] == '\n' {
        assert i > 0 ==> s[..n][i] == s[1..][..n - 1][i - 1];
      }
    }
  }

  /** The paragraph at `index` cut at `caret` around a new box, line breaks at the cut dropped, empty halves left out. */
  predicate CutAround(e: Editor, r: Editor, index: nat, caret: nat)
    requires index < |e.blocks| && caret <= |e.blocks[index].block.text|
  {
    var b, text := e.blocks[index], e.blocks[index].block.text;
    exists m, n :: 0 <= m <= caret <= n <= |text| && CutPoints(text, m, caret, n) && (
      var above, below := (if m > 0 then 1 else 0), (if n < |text| then 1 else 0);
      && Replaced(e, r, index, 1, above + 1 + below) && FreshBox(e, r, index + above)
      && (m > 0 ==> r.blocks[index] == EditorBlock(b.id, Text(text[..m])))
      && (n < |text| ==> r.blocks[index + above + 1] == EditorBlock(e.lastId + 2, Text(text[n..]))))
  }

  predicate CutPoints(text: string, m: int, caret: int, n: int)
    requires 0 <= m <= caret <= n <= |text|
  {
    && OnlyBreaks(text[m..caret]) && OnlyBreaks(text[caret..n])
    && (m > 0 ==> text[m - 1] != '\n') && (n < |text| ==> text[n] != '\n')
  }

  lemma CutsAt(text: string, caret: nat) returns (m: nat, n: nat)
    requires caret <= |text|
    ensures m <= caret <= n <= |text| && CutPoints(text, m, caret, n)
    ensures TrimNewlinesEnd(text[..caret]) == text[..m] && TrimNewlinesStart(text[caret..]) == text[n..]
  {
    TrimmedEndShape(text[..caret]);
    TrimmedStartShape(text[caret..]);
    hide TrimNewlinesEnd, TrimNewlinesStart;
    m, n := |TrimNewlinesEnd(text[..caret])|, |text| - |TrimNewlinesStart(text[caret..])|;
    assert text[..caret][m..] == text[m..caret] && text[caret..][..n - caret] == text[caret..n];
    assert text[caret..][n - caret..] == text[n..] && text[..caret][..m] == text[..m];
  }

  lemma CutPlaces(e: Editor, index: nat, before: string, after: string)
    requires index < |e.blocks|
    ensures var r, at := Cut(e, index, before, after), if before != "" then 1 else 0;
      && Replaced(e, r, index, 1, at + 1 + if after != "" then 1 else 0) && FreshBox(e, r, index + at)
      && (before != "" ==> r.blocks[index] == EditorBlock(e.blocks[index].id, Text(before)))
      && (after != "" ==> r.blocks[index + at + 1] == EditorBlock(e.lastId + 2, Text(after)))
  {
    var b, id, at := e.blocks[index], e.lastId + 1, if before != "" then 1 else 0;
    var pieces, r := CutPieces(b.id, before, after, id), Cut(e, index, before, after);
    SpliceReplaces(e, index, 1, pieces, Some(Focus(id, Unset)), if after != "" then id + 1 else id);
    hide Splice, Replaced;
    assert pieces[at] == EditorBlock(id, Check(false, "")) && r.blocks[index + at] == pieces[at];
    assert before != "" ==> pieces[0] == EditorBlock(b.id, Text(before)) && r.blocks[index + 0] == pieces[0];
    assert after != "" ==> pieces[at + 1] == EditorBlock(id + 1, Text(after)) && r.blocks[index + (at + 1)] == pieces[at + 1];
  }

  lemma CutShape(e: Editor, index: nat, caret: nat)
    requires index < |e.blocks| && caret <= |e.blocks[index].block.text|
    ensures var text := e.blocks[index].block.text;
      CutAround(e, Cut(e, index, TrimNewlinesEnd(text[..caret]), TrimNewlinesStart(text[caret..])), index, caret)
  {
    hide Cut, Replaced, FreshBox, CutPoints, TrimNewlinesEnd, TrimNewlinesStart;
    var text := e.blocks[index].block.text;
    var m, n := CutsAt(text, caret);
    CutPlaces(e, index, text[..m], text[n..]);
  }

  /** The insert button. */
  lemma InsertShape(e: Editor, origin: Option<(nat, Option<nat>)>)
    ensures var r := InsertCheck(e, origin);
      var index := if origin.None? then |e.blocks| else IndexOf(e.blocks, origin.value.0);
      if index == |e.blocks| then Replaced(e, r, index, 0, 1) && FreshBox(e, r, index)
      else
        var text := e.blocks[index].block.text;
        if e.blocks[index].block.Check? then Replaced(e, r, index + 1, 0, 1) && FreshBox(e, r, index + 1)
        else CutAround(e, r, index, if origin.value.1.Some? && origin.value.1.value < |text| then origin.value.1.value else |text|)
  {
    hide Cut, CutAround, InsertCheckAt, Replaced, FreshBox;
    var index := if origin.None? then |e.blocks| else IndexOf(e.blocks, origin.value.0);
    if index == |e.blocks| {
      InsertAtShape(e, index);
    } else if e.blocks[index].block.Check? {
      InsertAtShape(e, index + 1);
    } else {
      var text := e.blocks[index].block.text;
      CutShape(e, index, if origin.value.1.Some? then Min(origin.value.1.value, |text|) else |text|);
    }
  }

  /** The blocks of a converted paragraph: a leading text keeps the paragraph's id, every other id is new. */
  predicate NumberedFrom(blocks: seq<EditorBlock>, pieces: seq<Block>, id: nat, from: nat, to: nat) {
    && |blocks| == |pieces|
    && forall k :: 0 <= k < |pieces| ==>
         && blocks[k].block == pieces[k]
         && (if k == 0 && pieces[0].Text? then blocks[0].id == id else from < blocks[k].id <= to)
  }

  /** The last box among them has the focus, at its end. */
  predicate LastBoxFocused(blocks: seq<EditorBlock>, focus: Option<Focus>) {
    exists k :: 0 <= k < |blocks| && blocks[k].block.Check? && focus == Some(Focus(blocks[k].id, End))
      && forall m :: k < m < |blocks| ==> blocks[m].block.Text?
  }

  lemma {:induction false} LastBoxPlace(blocks: seq<EditorBlock>) returns (k: nat)
    requires LastBox(blocks).Some?
    ensures k < |blocks| && blocks[k].block.Check? && LastBox(blocks) == Some(Focus(blocks[k].id, End))
    ensures forall m :: k < m < |blocks| ==> blocks[m].block.Text?
  {
    k := |blocks| - 1;
    if blocks[k].block.Text? {
      k := LastBoxPlace(blocks[..k]);
    }
  }

  lemma LastBoxGetsFocus(blocks: seq<EditorBlock>)
    requires LastBox(blocks).Some?
    ensures LastBoxFocused(blocks, LastBox(blocks))
  {
    hide LastBox;
    var k := LastBoxPlace(blocks);
  }

  lemma WithIdsShape(pieces: seq<Block>, id: nat, lastId: nat)
    requires pieces != []
    ensures var withIds := WithIds(pieces, id, lastId);
      NumberedFrom(withIds, pieces, id, lastId, lastId + if pieces[0].Text? then |withIds| - 1 else |withIds|)
  {
    var withIds, n := WithIds(pieces, id, lastId), if pieces[0].Text? then 1 else 0;
    var numbered := Numbered(pieces[n..], lastId);
    assert pieces[0..] == pieces;
    hide Numbered;
    forall k | 0 <= k < |pieces|
      ensures withIds[k].block == pieces[k]
      ensures if k < n then withIds[k].id == id else lastId < withIds[k].id <= lastId + |withIds| - n
    {
      assert k >= n ==> withIds[k] == numbered[k - n];
    }
  }

  lemma SpliceStands(e: Editor, index: nat, pieces: seq<EditorBlock>, focus: Option<Focus>, lastId: nat)
    requires index < |e.blocks| && pieces != []
    ensures var r := Splice(e.blocks, index, 1, pieces, focus, lastId);
      && Replaced(e, r, index, 1, |pieces|) && r.blocks[index..index + |pieces|] == pieces
      && r.focus == focus && r.lastId == lastId
  {
    SpliceReplaces(e, index, 1, pieces, focus, lastId);
  }

  lemma ConversionShape(e: Editor, index: nat, text: string, pieces: seq<Block>)
    requires index < |e.blocks| && e.blocks[index].block.Text?
    requires Exploded(text) == Some(pieces) && exists piece :: piece in pieces && piece.Check?
    ensures var r, id := ChangeText(e, index, text), e.blocks[index].id;
      && Replaced(e, r, index, 1, |pieces|)
      && var made := r.blocks[index..index + |pieces|];
      && NumberedFrom(made, pieces, id, e.lastId, r.lastId) && LastBoxFocused(made, r.focus)
  {
    hide Splice, WithIds, LastBox, LastBoxFocused, Exploded;
    var id := e.blocks[index].id;
    var withIds := WithIds(pieces, id, e.lastId);
    WithIdsShape(pieces, id, e.lastId);
    WithIdsHaveABox(pieces, id, e.lastId);
    LastBoxGetsFocus(withIds);
    hide NumberedFrom, Replaced;
    SpliceStands(e, index, withIds, LastBox(withIds), e.lastId + if pieces[0].Text? then |withIds| - 1 else |withIds|);
  }

  /** Typing in a paragraph: the text as typed, or its pieces where it stood with the focus on the last box. */
  lemma TypingShape(e: Editor, index: nat, text: string)
    requires index < |e.blocks| && e.blocks[index].block.Text?
    ensures var r, id := ChangeText(e, index, text), e.blocks[index].id;
      match Exploded(text)
      case None => Replaced(e, r, index, 1, 1) && r.blocks[index] == EditorBlock(id, Text(text)) && r.focus == e.focus
      case Some(pieces) =>
        && Replaced(e, r, index, 1, |pieces|)
        && var made := r.blocks[index..index + |pieces|];
        && NumberedFrom(made, pieces, id, e.lastId, r.lastId) && LastBoxFocused(made, r.focus)
  {
    hide Splice, WithIds, LastBox, LastBoxFocused, NumberedFrom, Pieces;
    var r := ChangeText(e, index, text);
    match Exploded(text)
    case None =>
      assert r.blocks[..index] == e.blocks[..index] && r.blocks[index + 1..] == e.blocks[index + 1..];
    case Some(pieces) =>
      PiecesHaveABox(Split(text), []);
      ConversionShape(e, index, text, pieces);
  }
}
