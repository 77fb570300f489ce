/** Bold, italic and heading syntax inside one line: web/src/lib/inline.ts. */
module Inline {
  import opened Wrappers
  import opened Sequences
  import opened Text

  datatype Segment =
    | Plain(text: string, raw: string)
    | Bold(text: string, raw: string)
    | Italic(text: string, raw: string)

  datatype Heading = Heading(level: nat, marker: string, text: string)

  predicate StarFree(s: string) {
    forall i :: 0 <= i < |s| ==> s[i] != '*'
  }

  /** The end of the longest star-free run from `i`. */
  function RunEnd(s: string, i: nat): (j: nat)
    requires i <= |s|
    ensures i <= j <= |s|
    ensures forall k :: i <= k < j ==> s[k] != '*'
    ensures j < |s| ==> s[j] == '*'
    decreases |s| - i
  {
    if i < |s| && s[i] != '*' then RunEnd(s, i + 1) else i
  }

  // The BOLD pattern matches at `i`: the run is greedy, so it must stop at two stars.
  predicate BoldAt(s: string, i: nat) {
    && i + 2 < |s| && s[i] == '*' && s[i + 1] == '*'
    && var j := RunEnd(s, i + 2);
       i + 2 < j && j + 1 < |s| && s[j + 1] == '*'
  }

  predicate ItalicAt(s: string, i: nat) {
    && i + 1 < |s| && s[i] == '*'
    && var j := RunEnd(s, i + 1);
       i + 1 < j < |s|
  }

  /** Leftmost match at or after `i`. */
  function FindBold(s: string, i: nat): (r: Option<nat>)
    requires i <= |s|
    ensures r.Some? ==> i <= r.value && BoldAt(s, r.value)
    ensures forall k :: i <= k < (if r.Some? then r.value else |s|) ==> !BoldAt(s, k)
    decreases |s| - i
  {
    if i == |s| then None else if BoldAt(s, i) then Some(i) else FindBold(s, i + 1)
  }

  function FindItalic(s: string, i: nat): (r: Option<nat>)
    requires i <= |s|
    ensures r.Some? ==> i <= r.value && ItalicAt(s, r.value)
    ensures forall k :: i <= k < (if r.Some? then r.value else |s|) ==> !ItalicAt(s, k)
    decreases |s| - i
  {
    if i == |s| then None else if ItalicAt(s, i) then Some(i) else FindItalic(s, i + 1)
  }

  function BoldSegment(s: string, i: nat): Segment
    requires BoldAt(s, i)
  {
    var j := RunEnd(s, i + 2);
    Bold(s[i + 2..j], s[i..j + 2])
  }

  function ItalicSegment(s: string, i: nat): Segment
    requires ItalicAt(s, i)
  {
    var j := RunEnd(s, i + 1);
    Italic(s[i + 1..j], s[i..j + 1])
  }

  function PlainOf(s: string): seq<Segment> {
    if s == "" then [] else [Plain(s, s)]
  }

  /** What `emitPlainOrItalic` pushes for a chunk. */
  function Chunk(s: string): seq<Segment> {
    match FindItalic(s, 0)
    case None => PlainOf(s)
    case Some(i) => PlainOf(s[..i]) + [ItalicSegment(s, i)] + Chunk(s[RunEnd(s, i + 1) + 1..])
  }

  function Segments(line: string): seq<Segment> {
    match FindBold(line, 0)
    case None => Chunk(line)
    case Some(i) => Chunk(line[..i]) + [BoldSegment(line, i)] + Segments(line[RunEnd(line, i + 2) + 2..])
  }

  lemma ItalicCuts(s: string, i: nat)
    requires ItalicAt(s, i)
    ensures var raw := ItalicSegment(s, i).raw;
      |raw| > 0 && i + |raw| == RunEnd(s, i + 1) + 1 <= |s| && s == s[..i] + raw + s[i + |raw|..]
  {
    var end := RunEnd(s, i + 1) + 1;
    hide RunEnd;
    CutInThree(s, i, end);
  }

  lemma BoldCuts(s: string, i: nat)
    requires BoldAt(s, i)
    ensures var raw := BoldSegment(s, i).raw;
      |raw| > 0 && i + |raw| == RunEnd(s, i + 2) + 2 <= |s| && s == s[..i] + raw + s[i + |raw|..]
  {
    var end := RunEnd(s, i + 2) + 2;
    hide RunEnd;
    CutInThree(s, i, end);
  }

  lemma ChunkStep(s: string, i: nat)
    requires FindItalic(s, 0) == Some(i)
    ensures |ItalicSegment(s, i).raw| > 0 && i + |ItalicSegment(s, i).raw| <= |s|
    ensures Chunk(s) ==
            PlainOf(s[..i]) + [ItalicSegment(s, i)] + Chunk(s[i + |ItalicSegment(s, i).raw|..])
  {
    ItalicCuts(s, i);
    hide ItalicSegment;
  }

  lemma SegmentsStep(s: string, i: nat)
    requires FindBold(s, 0) == Some(i)
    ensures |BoldSegment(s, i).raw| > 0 && i + |BoldSegment(s, i).raw| <= |s|
    ensures Segments(s) ==
            Chunk(s[..i]) + [BoldSegment(s, i)] + Segments(s[i + |BoldSegment(s, i).raw|..])
  {
    BoldCuts(s, i);
    hide BoldSegment, Chunk;
  }

  lemma ChunkOfNothing()
    ensures Chunk("") == []
  {
  }

  lemma NoBoldLeft(s: string)
    requires FindBold(s, 0).None?
    ensures Segments(s) == Chunk(s)
  {
    hide Chunk;
  }

  method EmitPlainOrItalic(segments: seq<Segment>, chunk: string) returns (r: seq<Segment>)
    ensures r == segments + Chunk(chunk)
  {
    r := segments;
    var rest := chunk;
    while true
      invariant r + Chunk(rest) == segments + Chunk(chunk)
      decreases |rest|
    {
      var found := FindItalic(rest, 0);
      if found.None? {
        break;
      }
      var i := found.value;
      ChunkStep(rest, i);
      ghost var before, plain := r, PlainOf(rest[..i]);
      if i > 0 {
        r := r + [Plain(rest[..i], rest[..i])];
      }
      assert r == before + plain;
      var segment := ItalicSegment(rest, i);
      r := r + [segment];
      rest := rest[i + |segment.raw|..];
      Reassociate(before, plain, [segment], Chunk(rest));
    }
    if rest != "" {
      r := r + [Plain(rest, rest)];
    }
  }

  method ParseInline(line: string) returns (segments: seq<Segment>)
    ensures segments == Segments(line)
  {
    hide Segments, Chunk, BoldSegment, BoldAt;
    segments := [];
    var rest := line;
    while true
      invariant segments + Segments(rest) == Segments(line)
      decreases |rest|
    {
      var found := FindBold(rest, 0);
      if found.None? {
        break;
      }
      var i := found.value;
      SegmentsStep(rest, i);
      ChunkOfNothing();
      ghost var before, chunk := segments, Chunk(rest[..i]);
      if i > 0 {
        segments := EmitPlainOrItalic(segments, rest[..i]);
      }
      assert segments == before + chunk;
      var segment := BoldSegment(rest, i);
      segments := segments + [segment];
      rest := rest[i + |segment.raw|..];
      Reassociate(before, chunk, [segment], Segments(rest));
    }
    NoBoldLeft(rest);
    ChunkOfNothing();
    if rest != "" {
      segments := EmitPlainOrItalic(segments, rest);
    }
  }

  /** `/^(#{1,3}) (.*)$/` */
  function ParseHeading(line: string): Option<Heading> {
    var level :=
      if |line| >= 1 && line[0] == '#' then
        if |line| >= 2 && line[1] == '#' then
          if |line| >= 3 && line[2] == '#' then 3 else 2
        else 1
      else 0;
    if level > 0 && |line| > level && line[level] == ' ' && SingleLine(line[level + 1..]) then
      Some(Heading(level, line[..level + 1], line[level + 1..]))
    else None
  }

  // ----- Properties -----

  function Raws(segments: seq<Segment>): string {
    if segments == [] then "" else segments[0].raw + Raws(segments[1..])
  }

  lemma {:induction false} RawsConcat(a: seq<Segment>, b: seq<Segment>)
    ensures Raws(a + b) == Raws(a) + Raws(b)
  {
    if a == [] {
      assert a + b == b;
    } else {
      assert (a + b)[0] == a[0] && (a + b)[1..] == a[1..] + b;
      assert Raws(a + b) == a[0].raw + Raws(a[1..] + b);
      RawsConcat(a[1..], b);
    }
  }

  lemma RawsAround(a: seq<Segment>, middle: Segment, b: seq<Segment>)
    ensures Raws(a + [middle] + b) == Raws(a) + middle.raw + Raws(b)
  {
    assert [middle][1..] == [];
    RawsConcat(a, [middle]);
    RawsConcat(a + [middle], b);
  }

  lemma PlainLossless(s: string)
    ensures Raws(PlainOf(s)) == s
  {
  }

  lemma {:induction false} ChunkLossless(s: string)
    ensures Raws(Chunk(s)) == s
  {
    hide ItalicSegment, Raws;
    match FindItalic(s, 0)
    case None => PlainLossless(s);
    case Some(i) =>
      ItalicCuts(s, i);
      ChunkStep(s, i);
      var middle := ItalicSegment(s, i);
      var rest := s[i + |middle.raw|..];
      ChunkLossless(rest);
      PlainLossless(s[..i]);
      RawsAround(PlainOf(s[..i]), middle, Chunk(rest));
  }

  /** The raw slices concatenate to the line. */
  lemma {:induction false} Lossless(line: string)
    ensures Raws(Segments(line)) == line
  {
    match FindBold(line, 0)
    case None => ChunkLossless(line);
    case Some(i) =>
      BoldCuts(line, i);
      SegmentsStep(line, i);
      var middle := BoldSegment(line, i);
      var rest := line[i + |middle.raw|..];
      Lossless(rest);
      ChunkLossless(line[..i]);
      RawsAround(Chunk(line[..i]), middle, Segments(rest));
  }

  /** Plain text holds no match; marked text is star-free, not empty, and rebuilt by its markers. */
  predicate Proper(segment: Segment) {
    match segment
    case Plain(text, raw) =>
      text == raw != "" && forall k :: 0 <= k < |text| ==> !BoldAt(text, k) && !ItalicAt(text, k)
    case Bold(text, raw) => text != "" && StarFree(text) && raw == "**" + text + "**"
    case Italic(text, raw) => text != "" && StarFree(text) && raw == "*" + text + "*"
  }

  /** No two plain segments are neighbours. */
  predicate Alternating(segments: seq<Segment>) {
    forall i :: 0 <= i < |segments| - 1 ==> !(segments[i].Plain? && segments[i + 1].Plain?)
  }

  predicate AllProper(segments: seq<Segment>) {
    forall segment :: segment in segments ==> Proper(segment)
  }

  lemma RunEndUnique(s: string, i: nat, j: nat)
    requires i <= j <= |s| && (forall k :: i <= k < j ==> s[k] != '*') && (j < |s| ==> s[j] == '*')
    ensures RunEnd(s, i) == j
  {
  }

  /** A match inside a prefix is a match of the whole. */
  lemma ItalicInPrefix(s: string, n: nat, k: nat)
    requires n <= |s| && ItalicAt(s[..n], k)
    ensures ItalicAt(s, k)
  {
    var j := RunEnd(s[..n], k + 1);
    assert forall m :: k + 1 <= m <= j ==> s[m] == s[..n][m];
    RunEndUnique(s, k + 1, j);
  }

  lemma BoldHoldsItalic(s: string, k: nat)
    requires BoldAt(s, k)
    ensures ItalicAt(s, k + 1)
  {
  }

  lemma PlainProper(s: string, n: nat)
    requires n <= |s| && forall k :: 0 <= k < n ==> !ItalicAt(s, k)
    ensures AllProper(PlainOf(s[..n]))
  {
    var p := s[..n];
    forall k | 0 <= k < n ensures !BoldAt(p, k) && !ItalicAt(p, k) {
      if ItalicAt(p, k) {
        ItalicInPrefix(s, n, k);
      }
      if BoldAt(p, k) {
        BoldHoldsItalic(p, k);
        ItalicInPrefix(s, n, k + 1);
      }
    }
  }

  lemma MarkedProper(s: string, i: nat)
    ensures BoldAt(s, i) ==> Proper(BoldSegment(s, i))
    ensures ItalicAt(s, i) ==> Proper(ItalicSegment(s, i))
  {
  }

  lemma AroundProper(a: seq<Segment>, middle: Segment, b: seq<Segment>)
    requires AllProper(a) && Alternating(a) && AllProper(b) && Alternating(b)
    requires Proper(middle) && !middle.Plain?
    ensures AllProper(a + [middle] + b) && Alternating(a + [middle] + b)
  {
  }

  lemma {:induction false} ChunkProper(s: string)
    ensures AllProper(Chunk(s)) && Alternating(Chunk(s))
  {
    match FindItalic(s, 0)
    case None =>
      assert s[..|s|] == s;
      PlainProper(s, |s|);
    case Some(i) =>
      var middle := ItalicSegment(s, i);
      var rest := s[i + |middle.raw|..];
      PlainProper(s, i);
      MarkedProper(s, i);
      ChunkStep(s, i);
      ChunkProper(rest);
      AroundProper(PlainOf(s[..i]), middle, Chunk(rest));
  }

  /** Segments are maximal and canonical. */
  lemma {:induction false} SegmentsProper(line: string)
    ensures AllProper(Segments(line)) && Alternating(Segments(line))
  {
    match FindBold(line, 0)
    case None => ChunkProper(line);
    case Some(i) =>
      var middle := BoldSegment(line, i);
      var rest := line[i + |middle.raw|..];
      ChunkProper(line[..i]);
      MarkedProper(line, i);
      SegmentsStep(line, i);
      SegmentsProper(rest);
      AroundProper(Chunk(line[..i]), middle, Segments(rest));
  }

  lemma {:induction false} ChunkHasNoBold(s: string)
    ensures forall segment :: segment in Chunk(s) ==> !segment.Bold?
  {
    match FindItalic(s, 0)
    case None =>
    case Some(i) => ChunkHasNoBold(s[RunEnd(s, i + 1) + 1..]);
  }

  /** Bold is recognised first: a bold segment comes out exactly when the pattern matches somewhere. */
  lemma BoldIsFound(line: string)
    ensures (exists segment :: segment in Segments(line) && segment.Bold?) <==>
            (exists k :: 0 <= k < |line| && BoldAt(line, k))
  {
    match FindBold(line, 0)
    case None => ChunkHasNoBold(line);
    case Some(i) => assert BoldSegment(line, i) in Segments(line);
  }

  lemma BoldInPrefix(s: string, n: nat, k: nat)
    requires n <= |s| && BoldAt(s[..n], k)
    ensures BoldAt(s, k)
  {
    var j := RunEnd(s[..n], k + 2);
    assert forall m :: k <= m <= j + 1 ==> s[m] == s[..n][m];
    RunEndUnique(s, k + 2, j);
  }

  lemma BoldInSuffix(s: string, n: nat, k: nat)
    requires n <= |s| && BoldAt(s[n..], k)
    ensures BoldAt(s, n + k)
  {
    var j := RunEnd(s[n..], k + 2);
    assert forall m :: k <= m <= j + 1 ==> s[n + m] == s[n..][m];
    RunEndUnique(s, n + k + 2, n + j);
  }

  /** Where the parts of a marked text stand. */
  lemma MarkedPlaces(line: string, k: nat, mark: string, text: string, b: string)
    requires k <= |line| && line[k..] == mark + text + mark + b
    ensures var i, j := k + |mark|, k + |mark| + |text|;
      && j + |mark| <= |line|
      && line[k..j + |mark|] == mark + text + mark && line[i..j] == text
      && line[k..i] == mark && line[j..j + |mark|] == mark
  {
    var rest, i, j := line[k..], |mark|, |mark| + |text|;
    assert rest[..j + |mark|] == mark + text + mark && rest[i..j] == text;
    assert line[k..k + j + |mark|] == rest[..j + |mark|] && line[k + i..k + j] == rest[i..j];
    assert rest[..i] == mark && rest[j..j + |mark|] == mark;
    assert line[k..k + i] == rest[..i] && line[k + j..k + j + |mark|] == rest[j..j + |mark|];
  }

  lemma BoldPlace(line: string, k: nat, text: string, b: string)
    requires k <= |line| && text != "" && StarFree(text) && line[k..] == "**" + text + "**" + b
    ensures BoldAt(line, k) && BoldSegment(line, k) == Bold(text, "**" + text + "**")
  {
    var j := k + 2 + |text|;
    MarkedPlaces(line, k, "**", text, b);
    assert line[k] == line[k..k + 2][0] && line[k + 1] == line[k..k + 2][1];
    assert line[j] == line[j..j + 2][0] && line[j + 1] == line[j..j + 2][1];
    assert forall m :: k + 2 <= m < j ==> line[m] == line[k + 2..j][m - k - 2];
    RunEndUnique(line, k + 2, j);
  }

  lemma ItalicPlace(line: string, k: nat, text: string, b: string)
    requires k <= |line| && text != "" && StarFree(text) && line[k..] == "*" + text + "*" + b
    ensures ItalicAt(line, k) && ItalicSegment(line, k) == Italic(text, "*" + text + "*")
  {
    var j := k + 1 + |text|;
    MarkedPlaces(line, k, "*", text, b);
    assert line[k] == line[k..k + 1][0] && line[j] == line[j..j + 1][0];
    assert forall m :: k + 1 <= m < j ==> line[m] == line[k + 1..j][m - k - 1];
    RunEndUnique(line, k + 1, j);
  }

  lemma NoBoldFound(line: string)
    requires forall k :: 0 <= k < |line| ==> !BoldAt(line, k)
    ensures FindBold(line, 0).None? && Segments(line) == Chunk(line)
  {
    hide Chunk;
  }

  lemma BoldFound(line: string, i: nat)
    requires BoldAt(line, i) && forall k :: 0 <= k < i ==> !BoldAt(line, k)
    ensures FindBold(line, 0) == Some(i)
  {
  }

  lemma ItalicFound(line: string, i: nat)
    requires ItalicAt(line, i) && forall k :: 0 <= k < i ==> !ItalicAt(line, k)
    ensures FindItalic(line, 0) == Some(i)
  {
  }

  /** The leftmost bold text cuts a line in three, and the parts before and after it are read by themselves. */
  lemma FirstBoldCuts(a: string, text: string, b: string)
    requires text != "" && StarFree(text)
    requires forall k :: 0 <= k < |a| ==> !BoldAt(a + "**" + text + "**" + b, k)
    ensures Segments(a + "**" + text + "**" + b) == Segments(a) + [Bold(text, "**" + text + "**")] + Segments(b)
  {
    hide BoldAt, BoldSegment, Segments, StarFree;
    var raw, line, i := "**" + text + "**", a + "**" + text + "**" + b, |a|;
    assert line == a + raw + b;
    assert line[i..] == raw + b && line[i + |raw|..] == b && line[..i] == a;
    BoldPlace(line, i, text, b);
    BoldFound(line, i);
    forall k | 0 <= k < |a| ensures !BoldAt(a, k) {
      if BoldAt(line[..i], k) {
        BoldInPrefix(line, i, k);
      }
    }
    NoBoldFound(a);
    SegmentsStep(line, i);
  }

  /** The same for the leftmost italic text, where nothing is bold. */
  lemma FirstItalicCuts(a: string, text: string, b: string)
    requires text != "" && StarFree(text)
    requires var line := a + "*" + text + "*" + b;
      forall k :: 0 <= k < |line| ==> !BoldAt(line, k) && (k < |a| ==> !ItalicAt(line, k))
    ensures Segments(a + "*" + text + "*" + b) == PlainOf(a) + [Italic(text, "*" + text + "*")] + Segments(b)
  {
    hide BoldAt, ItalicAt, ItalicSegment, Segments, Chunk, StarFree;
    var raw, line, i := "*" + text + "*", a + "*" + text + "*" + b, |a|;
    assert line == a + raw + b;
    assert line[i..] == raw + b && line[i + |raw|..] == b && line[..i] == a;
    ItalicPlace(line, i, text, b);
    ItalicFound(line, i);
    var n := i + |raw|;
    forall k | 0 <= k < |b| ensures !BoldAt(b, k) {
      if BoldAt(line[n..], k) {
        BoldInSuffix(line, n, k);
      }
    }
    NoBoldFound(line);
    NoBoldFound(b);
    ChunkStep(line, i);
  }

  /** Without a match of either pattern a line is one plain segment. */
  lemma PlainStaysWhole(line: string)
    requires forall k :: 0 <= k < |line| ==> !BoldAt(line, k) && !ItalicAt(line, k)
    ensures Segments(line) == PlainOf(line)
  {
    NoBoldFound(line);
    assert FindItalic(line, 0).None?;
  }

  lemma BoldIsSpelled(line: string, k: nat)
    requires k <= |line|
    ensures BoldAt(line, k) <==> exists text, b: string :: text != "" && StarFree(text) && line[k..] == "**" + text + "**" + b
  {
    if BoldAt(line, k) {
      var j := RunEnd(line, k + 2);
      CutInThree(line[k..], j - k, j - k + 2);
      assert line[k..][..j - k] == "**" + line[k + 2..j] && line[k..][j - k..j - k + 2] == "**";
    }
    hide BoldAt, StarFree, RunEnd;
    if text, b: string :| text != "" && StarFree(text) && line[k..] == "**" + text + "**" + b {
      BoldPlace(line, k, text, b);
    }
  }

  lemma ItalicIsSpelled(line: string, k: nat)
    requires k <= |line|
    ensures ItalicAt(line, k) <==> exists text, b: string :: text != "" && StarFree(text) && line[k..] == "*" + text + "*" + b
  {
    if ItalicAt(line, k) {
      var j := RunEnd(line, k + 1);
      CutInThree(line[k..], j - k, j - k + 1);
      assert line[k..][..j - k] == "*" + line[k + 1..j] && line[k..][j - k..j - k + 1] == "*";
    }
    hide ItalicAt, StarFree, RunEnd;
    if text, b: string :| text != "" && StarFree(text) && line[k..] == "*" + text + "*" + b {
      ItalicPlace(line, k, text, b);
    }
  }

  /** The patterns: two stars or one, text without stars, and as many stars again. */
  lemma PatternsAreSpelled(line: string, k: nat)
    requires k <= |line|
    ensures BoldAt(line, k) <==> exists text, b: string :: text != "" && StarFree(text) && line[k..] == "**" + text + "**" + b
    ensures ItalicAt(line, k) <==> exists text, b: string :: text != "" && StarFree(text) && line[k..] == "*" + text + "*" + b
  {
    BoldIsSpelled(line, k);
    ItalicIsSpelled(line, k);
  }

  /** `n` hashes and a space, with one line of text after them. */
  predicate HeadingAt(line: string, n: nat) {
    1 <= n <= 3 && n < |line| && line[..n] == "###"[..n] && line[n] == ' ' && SingleLine(line[n + 1..])
  }

  lemma HeadingIsParsed(line: string, n: nat)
    requires HeadingAt(line, n)
    ensures ParseHeading(line) == Some(Heading(n, line[..n + 1], line[n + 1..]))
  {
    assert forall k :: 0 <= k < n ==> line[k] == line[..n][k] == "###"[..n][k] == '#';
  }

  /** A heading is a line of that shape, and the line is its marker followed by its text. */
  lemma HeadingRebuilds(line: string)
    ensures ParseHeading(line).Some? <==> exists n :: HeadingAt(line, n)
    ensures ParseHeading(line).Some? ==>
              var h := ParseHeading(line).value;
              HeadingAt(line, h.level) && h.marker + h.text == line && h.marker == "###"[..h.level] + " "
  {
    if ParseHeading(line).Some? {
      var n := ParseHeading(line).value.level;
      assert line[..n] == "###"[..n];
      assert HeadingAt(line, n);
    }
    if n :| HeadingAt(line, n) {
      HeadingIsParsed(line, n);
    }
  }
}
