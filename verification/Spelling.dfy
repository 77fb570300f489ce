/** The stored format spelled out: what is written for each block and between two, and what is read as a box. */
module Spelling {
  import opened Wrappers
  import opened Sequences
  import opened Text
  import opened Markdown
  import RoundTrip
  import opened KeepBody
  import opened KeepNotes

  // ----- Reading a box -----

  /** At most one white space character before the label goes. */
  function LabelOf(rest: string): string {
    if rest != "" && IsSpace(rest[0]) then rest[1..] else rest
  }

  /** A dash, a white space, a mark in brackets and a one-line label; ticked by `x` or `X`. */
  lemma BoxForms(space: char, mark: char, rest: string)
    ensures var line := "-" + [space] + "[" + [mark] + "]" + rest;
      && (IsBox(line) <==> IsSpace(space) && mark in " xX" && SingleLine(LabelOf(rest)))
      && (IsBox(line) ==> BoxOf(line) == Check(mark in "xX", LabelOf(rest)))
  {
    var line := "-" + [space] + "[" + [mark] + "]" + rest;
    assert line[5..] == rest;
    assert rest != "" ==> line[6..] == rest[1..] && line[5] == rest[0];
  }

  lemma OnlyBoxForms(line: string)
    requires IsBox(line)
    ensures exists space, mark, rest: string :: line == "-" + [space] + "[" + [mark] + "]" + rest
  {
    assert line == "-" + [line[1]] + "[" + [line[3]] + "]" + line[5..];
  }

  // ----- Writing blocks -----

  function Spell(block: Block): string {
    match block
    case Check(checked, text) => (if checked then "- [x] " else "- [ ] ") + text
    case Text(text) => text
  }

  /** A line break between two boxes, an empty line around every paragraph. */
  function Between(upper: Block, lower: Block): string {
    if upper.Check? && lower.Check? then "\n" else "\n\n"
  }

  function Spelled(blocks: seq<Block>): string {
    if blocks == [] then ""
    else if |blocks| == 1 then Spell(blocks[0])
    else Spell(blocks[0]) + Between(blocks[0], blocks[1]) + Spelled(blocks[1..])
  }

  /** The line break that the importer's separating empty line adds before a block. */
  function Lead(block: Block, first: bool, prevCheck: bool): string {
    if first || (block.Check? && prevCheck) then "" else "\n"
  }

  lemma JoinStep(block: Block, first: bool, prevCheck: bool)
    ensures KeepStep(block, first, prevCheck) != []
    ensures Join(KeepStep(block, first, prevCheck)) == Lead(block, first, prevCheck) + Spell(block)
  {
    var step, text := KeepStep(block, first, prevCheck), Spell(block);
    if first || (block.Check? && prevCheck) {
      assert step == [text] && "" + text == text;
    } else {
      assert step == ["", text] && step[1..] == [text];
      assert "" + "\n" + text == "\n" + text;
    }
  }

  lemma BreakBetween(upper: Block, lower: Block)
    ensures "\n" + Lead(lower, false, upper.Check?) == Between(upper, lower)
  {
  }

  lemma Regroup(lead: string, text: string, next: string, rest: string)
    ensures lead + text + "\n" + (next + rest) == lead + (text + ("\n" + next) + rest)
  {
  }

  lemma {:induction false} KeepLinesSpell(blocks: seq<Block>, first: bool, prevCheck: bool)
    requires blocks != []
    ensures KeepLines(blocks, first, prevCheck) != []
    ensures Join(KeepLines(blocks, first, prevCheck)) == Lead(blocks[0], first, prevCheck) + Spelled(blocks)
  {
    hide KeepStep, Spell, Lead, Between, Join;
    var block, rest := blocks[0], blocks[1..];
    var step, tail := KeepStep(block, first, prevCheck), KeepLines(rest, false, block.Check?);
    JoinStep(block, first, prevCheck);
    if rest == [] {
      assert step + tail == step;
    } else {
      KeepLinesSpell(rest, false, block.Check?);
      JoinConcat(step, tail);
      BreakBetween(block, rest[0]);
      Regroup(Lead(block, first, prevCheck), Spell(block), Lead(rest[0], false, block.Check?), Spelled(rest));
    }
  }

  lemma RowsSpell(blocks: seq<Block>)
    ensures Join(Rows(blocks, true, false)) == Spelled(blocks)
  {
    RowsJoin(blocks, true, false);
    if blocks != [] {
      KeepLinesSpell(blocks, true, false);
      assert "" + Spelled(blocks) == Spelled(blocks);
    }
  }

  /** What the editor stores for blocks that are not blank and whose ends are not. */
  lemma EditorSpells(blocks: seq<Block>)
    requires AllHaveWords(blocks) && CleanEnds(blocks)
    ensures Serialized(blocks) == Spelled(blocks)
  {
    var rows := Rows(blocks, true, false);
    RowsAgree(blocks, Nothing);
    if blocks != [] {
      RowsEnd(blocks, true, false);
    }
    RoundTrip.DropNothing(rows);
    RowsSpell(blocks);
  }

  /** What the importer stores for paragraphs without empty lines and one-line items. */
  lemma ImporterSpells(blocks: seq<Block>)
    requires AllFilled(blocks)
    ensures KeepSerialized(blocks) == Spelled(blocks)
  {
    KeepSerializedRows(blocks);
    RowsSpell(blocks);
  }

  // ----- What collapsing and stripping leave -----

  /** Of every run of line feeds at most two stay; `n` of them were just seen. */
  function Squeezed(s: string, n: nat): string {
    if s == "" then ""
    else if s[0] != '\n' then [s[0]] + Squeezed(s[1..], 0)
    else if n < 2 then "\n" + Squeezed(s[1..], n + 1)
    else Squeezed(s[1..], n)
  }

  lemma TwoBreaks(t: string, n: nat)
    requires n <= 2
    ensures Squeezed("\n\n" + t, n) == (if n == 0 then "\n\n" else if n == 1 then "\n" else "") + Squeezed(t, 2)
  {
    assert ("\n\n" + t)[1..] == "\n" + t && ("\n" + t)[1..] == t;
  }

  lemma ThreeBreaks(t: string, n: nat)
    requires n <= 2
    ensures Squeezed("\n\n\n" + t, n) == Squeezed("\n\n" + t, n)
  {
    TwoBreaks(t, n);
    TwoBreaks("\n" + t, n);
    assert "\n\n\n" + t == "\n\n" + ("\n" + t) && ("\n" + t)[1..] == t;
  }

  lemma {:induction false} TriplesSqueezeAlike(s: string, n: nat)
    requires n <= 2
    ensures Squeezed(ReplaceTriples(s), n) == Squeezed(s, n)
  {
    if s == "" {
    } else if |s| >= 3 && TripleAt(s, 0) {
      var rest := s[3..];
      TriplesSqueezeAlike(rest, 2);
      assert s == "\n\n\n" + rest;
      TwoBreaks(ReplaceTriples(rest), n);
      TwoBreaks(rest, n);
      hide Squeezed;
      ThreeBreaks(rest, n);
    } else {
      TriplesSqueezeAlike(s[1..], if s[0] != '\n' then 0 else if n < 2 then n + 1 else n);
      assert ([s[0]] + ReplaceTriples(s[1..]))[1..] == ReplaceTriples(s[1..]);
    }
  }

  lemma {:induction false} NothingToSqueeze(s: string, n: nat)
    requires n <= 2 && !HasTriple(s)
    requires n == 2 && s != "" ==> s[0] != '\n'
    requires n == 1 && |s| >= 2 ==> s[0] != '\n' || s[1] != '\n'
    ensures Squeezed(s, n) == s
  {
    if s != "" {
      forall i | 0 <= i <= |s[1..]| - 3 ensures !TripleAt(s[1..], i) {
        assert !TripleAt(s, i + 1);
      }
      if n == 0 && |s| >= 3 {
        assert !TripleAt(s, 0);
      }
      NothingToSqueeze(s[1..], if s[0] != '\n' then 0 else n + 1);
      assert s == [s[0]] + s[1..];
    }
  }

  /** The collapsing loop, however often it runs, keeps at most two line feeds of each run, and all else. */
  lemma {:induction false} CollapsingSqueezes(s: string)
    ensures Collapsed(s) == Squeezed(s, 0)
    decreases |s|
  {
    if HasTriple(s) {
      ReplaceTriplesShrinks(s);
      CollapsingSqueezes(ReplaceTriples(s));
      TriplesSqueezeAlike(s, 0);
    } else {
      NothingToSqueeze(s, 0);
    }
  }

  /** Stripping cuts the line feeds at both ends, and nothing between. */
  lemma {:induction false} StrippingCuts(s: string) returns (a: string, b: string)
    ensures s == a + StripNewlines(s) + b && OnlyBreaks(a) && OnlyBreaks(b)
    ensures var t := StripNewlines(s); t != "" ==> t[0] != '\n' && t[|t| - 1] != '\n'
    decreases |s|
  {
    a, b := "", "";
    if s != "" && s[0] == '\n' {
      a, b := StrippingCuts(s[1..]);
      assert s == "\n" + s[1..];
      a := "\n" + a;
    } else if s != "" && s[|s| - 1] == '\n' {
      a, b := StrippingCuts(s[..|s| - 1]);
      assert s == s[..|s| - 1] + "\n";
      b := b + "\n";
    }
  }

  /** What the importer stores for any blocks at all. */
  lemma ImporterSpellsAll(blocks: seq<Block>)
    ensures KeepSerialized(blocks) == StripNewlines(Squeezed(Spelled(blocks), 0))
  {
    if blocks != [] {
      KeepLinesSpell(blocks, true, false);
      assert "" + Spelled(blocks) == Spelled(blocks);
    }
    CollapsingSqueezes(Spelled(blocks));
  }

  // ----- Reading text between boxes -----

  lemma {:induction false} LinesRun(lines: seq<string>, rest: seq<string>, run: seq<string>, after: bool)
    requires NoBoxes(lines)
    ensures ParseFrom(lines + rest, run, after) == ParseFrom(rest, run + lines, after)
  {
    hide IsBox, Flush;
    if lines == [] {
      assert lines + rest == rest && run + lines == run;
    } else {
      assert lines[0] in lines && forall line :: line in lines[1..] ==> line in lines;
      TailOfConcat(lines, rest);
      assert run + [lines[0]] + lines[1..] == run + lines;
      LinesRun(lines[1..], rest, run + [lines[0]], after);
    }
  }

  /** A box line becomes its box where it stands, the lines up to it what `Flush` makes of them. */
  lemma BoxesCutTheBody(lines: seq<string>, box: string, rest: seq<string>, after: bool)
    requires NoBoxes(lines) && IsBox(box)
    ensures ParseFrom(lines + [box] + rest, [], after) == Flush(lines, after, true) + [BoxOf(box)] + ParseFrom(rest, [], true)
    ensures ParseFrom(lines, [], after) == Flush(lines, after, false)
  {
    hide IsBox, Flush, BoxOf;
    assert lines + [box] + rest == lines + ([box] + rest) && [] + lines == lines && lines + [] == lines;
    TailOfConcat([box], rest);
    assert [box][1..] + rest == rest;
    LinesRun(lines, [box] + rest, [], after);
    LinesRun(lines, [], [], after);
  }

  /** At the edge of the body all blank lines go; beside a box exactly one, if there is one. */
  predicate FrontGone(run: seq<string>, i: nat, box: bool)
    requires i < |run|
  {
    if box then i == (if Blank(run[0]) then 1 else 0) else AllBlank(run[..i]) && !Blank(run[i])
  }

  predicate BackGone(run: seq<string>, j: nat, box: bool)
    requires 0 < j <= |run|
  {
    if box then j == |run| - (if Blank(run[|run| - 1]) then 1 else 0) else AllBlank(run[j..]) && !Blank(run[j - 1])
  }

  lemma StripPlaces(run: seq<string>, afterCheck: bool, beforeCheck: bool) returns (i: nat, j: nat)
    requires !AllBlank(run)
    ensures i < j <= |run| && StripSeparators(run, afterCheck, beforeCheck) == run[i..j] && !AllBlank(run[i..j])
    ensures i == (if afterCheck && Blank(run[0]) then 1 else 0)
    ensures j == |run| - (if beforeCheck && Blank(run[|run| - 1]) then 1 else 0)
  {
    hide Blank;
    var n, w :| 0 <= n < |run| && run[n] == w && !Blank(w);
    i := if afterCheck && Blank(run[0]) then 1 else 0;
    j := |run| - if beforeCheck && Blank(run[|run| - 1]) then 1 else 0;
    assert i <= n < j;
    var front := run[i..];
    assert front[|front| - 1] == run[|run| - 1] && front[..j - i] == run[i..j];
    assert run[i..j][n - i] == w;
  }

  lemma FrontPlace(run: seq<string>, afterCheck: bool) returns (i: nat)
    requires !AllBlank(run)
    ensures i < |run| && (if afterCheck then run else DropFront(run)) == run[i..]
    ensures if afterCheck then i == 0 else AllBlank(run[..i]) && !Blank(run[i])
    ensures !AllBlank(run[i..])
  {
    DropFrontSpec(run);
    assert run != [] && DropFront(run) != [];
    hide Blank, AllBlank, DropFront;
    i := 0;
    assert run[0..] == run;
    if !afterCheck {
      i := FrontCut(run);
    }
  }

  lemma BackPlace(run: seq<string>, beforeCheck: bool) returns (n: nat)
    requires !AllBlank(run)
    ensures 0 < n <= |run| && (if beforeCheck then run else DropBack(run)) == run[..n]
    ensures if beforeCheck then n == |run| else AllBlank(run[n..]) && !Blank(run[n - 1])
  {
    DropBackSpec(run);
    assert run != [] && DropBack(run) != [];
    hide Blank, AllBlank, DropBack;
    n := |run|;
    assert run[..n] == run;
    if !beforeCheck {
      n := BackCut(run);
    }
  }

  lemma TrimPlaces(run: seq<string>, afterCheck: bool, beforeCheck: bool) returns (i: nat, j: nat)
    requires !AllBlank(run)
    ensures i < j <= |run| && TrimEdges(run, afterCheck, beforeCheck) == run[i..j]
    ensures if afterCheck then i == 0 else AllBlank(run[..i]) && !Blank(run[i])
    ensures if beforeCheck then j == |run| else AllBlank(run[j..]) && !Blank(run[j - 1])
  {
    hide Blank, AllBlank, DropFront, DropBack;
    i := FrontPlace(run, afterCheck);
    var n := BackPlace(run[i..], beforeCheck);
    j := i + n;
    assert run[i..][..n] == run[i..j] && run[i..][n..] == run[j..] && run[i..][n - 1] == run[j - 1];
  }

  lemma SliceLines(run: seq<string>, i: nat, j: nat)
    requires i < j <= |run| && Unbroken(run)
    ensures Split(Join(run[i..j])) == run[i..j]
  {
    assert forall line :: line in run[i..j] ==> line in run;
    SplitJoin(run[i..j]);
  }

  /** Without words a run is kept only between two boxes, as as many empty lines. */
  lemma BlanksBetweenBoxes(run: seq<string>, after: bool, before: bool)
    requires AllBlank(run)
    ensures if run == [] || !(after && before) then Flush(run, after, before) == []
            else exists text :: Flush(run, after, before) == [Text(text)]
                   && AllEmpty(Split(text)) && |Split(text)| == |run|
  {
    if run != [] {
      var empties := seq(|run|, _ => "");
      SplitJoin(empties);
      hide Split;
      assert after && before ==> Flush(run, after, before) == [Text(Join(empties))];
    }
  }

  lemma WordsPlaces(run: seq<string>, after: bool, before: bool) returns (i: nat, j: nat)
    requires !AllBlank(run)
    ensures i < j <= |run| && FrontGone(run, i, after) && BackGone(run, j, before)
    ensures TrimEdges(StripSeparators(run, after, before), after, before) == run[i..j]
  {
    hide Blank, AllBlank, StripSeparators, TrimEdges;
    var k, m := StripPlaces(run, after, before);
    var kept := run[k..m];
    i, j := TrimPlaces(kept, after, before);
    SliceOfSlice(run, k, m, i, j);
    assert !after ==> kept[..i] == run[..i];
    assert !before ==> kept[j..] == run[k + j..];
    i, j := k + i, k + j;
  }

  /** With words it is one text, of the lines that are left. */
  lemma WordsBetweenBoxes(run: seq<string>, after: bool, before: bool)
    requires Unbroken(run) && !AllBlank(run)
    ensures exists i, j, text :: 0 <= i < j <= |run| && FrontGone(run, i, after) && BackGone(run, j, before)
              && Flush(run, after, before) == [Text(text)] && Split(text) == run[i..j]
  {
    hide Blank, StripSeparators, TrimEdges, FrontGone, BackGone, Split;
    var i, j := WordsPlaces(run, after, before);
    SliceLines(run, i, j);
    assert Flush(run, after, before) == [Text(Join(run[i..j]))];
  }

  // ----- The parts of an imported note -----

  /** One pass over the three kinds of line end. */
  function Unified(s: string): string {
    if s == "" then ""
    else if |s| >= 2 && s[0] == '\r' && s[1] == '\n' then "\n" + Unified(s[2..])
    else if s[0] == '\r' then "\n" + Unified(s[1..])
    else [s[0]] + Unified(s[1..])
  }

  /** The two replacements make every CR LF, CR and LF one line feed. */
  lemma {:induction false} LineEndsAreUnified(s: string)
    ensures ReplaceCr(ReplaceCrLf(s)) == Unified(s)
    ensures '\r' !in Unified(s)
  {
    if s == "" {
    } else if |s| >= 2 && s[0] == '\r' && s[1] == '\n' {
      LineEndsAreUnified(s[2..]);
      assert ("\n" + ReplaceCrLf(s[2..]))[1..] == ReplaceCrLf(s[2..]);
    } else {
      LineEndsAreUnified(s[1..]);
      assert ([s[0]] + ReplaceCrLf(s[1..]))[1..] == ReplaceCrLf(s[1..]);
    }
  }

  lemma {:induction false} ParagraphsContinue(a: seq<string>, b: seq<string>, blank: string, paragraph: seq<string>)
    requires PyBlank(blank)
    ensures Paragraphs(a + [blank] + b, paragraph) == Paragraphs(a, paragraph) + Paragraphs(b, [])
  {
    hide PyBlank, ParagraphOf;
    if a == [] {
      TailOfConcat([blank], b);
      assert [] + [blank] + b == [blank] + b && [blank][1..] + b == b;
    } else {
      assert a + [blank] + b == a + ([blank] + b);
      TailOfConcat(a, [blank] + b);
      assert a[1..] + ([blank] + b) == a[1..] + [blank] + b;
      if PyBlank(a[0]) {
        ParagraphsContinue(a[1..], b, blank, []);
        Associate(ParagraphOf(paragraph), Paragraphs(a[1..], []), Paragraphs(b, []));
      } else {
        ParagraphsContinue(a[1..], b, blank, paragraph + [a[0]]);
      }
    }
  }

  lemma {:induction false} OneParagraph(lines: seq<string>, paragraph: seq<string>)
    requires paragraph + lines != [] && forall line :: line in lines ==> !PyBlank(line)
    ensures Paragraphs(lines, paragraph) == [Text(Join(paragraph + lines))]
  {
    if lines == [] {
      assert paragraph + lines == paragraph;
    } else {
      assert lines[0] in lines && forall line :: line in lines[1..] ==> line in lines;
      assert paragraph + [lines[0]] + lines[1..] == paragraph + lines;
      OneParagraph(lines[1..], paragraph + [lines[0]]);
    }
  }

  /** Lines blank for Python cut the text, and each stretch of others between them is one paragraph. */
  lemma BlankLinesCut(a: seq<string>, blank: string, b: seq<string>)
    requires PyBlank(blank)
    ensures Paragraphs(a + [blank] + b, []) == Paragraphs(a, []) + Paragraphs(b, [])
    ensures a != [] && (forall line :: line in a ==> !PyBlank(line)) ==> Paragraphs(a, []) == [Text(Join(a))]
    ensures Paragraphs([], []) == []
  {
    ParagraphsContinue(a, b, blank, []);
    if a != [] && forall line :: line in a ==> !PyBlank(line) {
      assert [] + a == a;
      OneParagraph(a, []);
    }
  }

  /** One box per item, in order, ticked as the item is, empty for an item without a text; others make none. */
  lemma {:induction false} ItemsBecomeBoxes(items: seq<KeepItem>, more: seq<KeepItem>, text: string, ticked: bool)
    ensures ItemBlocks(items + more) == ItemBlocks(items) + ItemBlocks(more)
    ensures ItemBlocks([KeepItem(Some(text), ticked)]) == [Check(ticked, text)]
    ensures ItemBlocks([KeepItem(None, ticked)]) == [Check(ticked, "")]
    ensures ItemBlocks([NotAnObject]) == []
  {
    assert forall item: KeepItem :: [item][1..] == [];
    if items == [] {
      assert items + more == more;
    } else {
      TailOfConcat(items, more);
      ItemsBecomeBoxes(items[1..], more, text, ticked);
      var first := match items[0]
        case NotAnObject => []
        case KeepItem(t, isChecked) => [Check(isChecked, if t.Some? then t.value else "")];
      Associate(first, ItemBlocks(items[1..]), ItemBlocks(more));
    }
  }

  /** An imported body: the paragraphs of the text, then the items, spelled as above. */
  lemma ImportedBody(raw: KeepNote)
    requires forall block :: block in Boxes(raw) ==> NoNewline(block.text)
    ensures KeepSerialized(NoteBlocks(raw)) ==
            Spelled((if raw.textContent.Some? then Paragraphs(Split(Unified(raw.textContent.value)), []) else [])
                    + (if raw.listContent.Some? then ItemBlocks(raw.listContent.value) else []))
  {
    NoteParts(raw);
    ImporterSpells(NoteBlocks(raw));
    if raw.textContent.Some? {
      LineEndsAreUnified(raw.textContent.value);
    }
  }
}
