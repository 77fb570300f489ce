/** Strings as the front end sees them: white space, lines, splitting and joining. */
module Text {

  /** The characters that `\s` matches and `trim` removes in JavaScript. */
  predicate IsSpace(c: char) {
    || '\t' <= c <= '\r' || c == ' ' || c == '\U{00A0}' || c == '\U{1680}'
    || '\U{2000}' <= c <= '\U{200A}' || c == '\U{2028}' || c == '\U{2029}'
    || c == '\U{202F}' || c == '\U{205F}' || c == '\U{3000}' || c == '\U{FEFF}'
  }

  /** The characters that `.` does not match in a JavaScript regular expression. */
  predicate IsTerminator(c: char) {
    c == '\n' || c == '\r' || c == '\U{2028}' || c == '\U{2029}'
  }

  predicate SingleLine(s: string) {
    forall i :: 0 <= i < |s| ==> !IsTerminator(s[i])
  }

  predicate NoNewline(s: string) {
    forall i :: 0 <= i < |s| ==> s[i] != '\n'
  }

  predicate OnlyBreaks(s: string) {
    forall i :: 0 <= i < |s| ==> s[i] == '\n'
  }

  /** `line.trim() === ''` */
  predicate Blank(line: string) {
    forall i :: 0 <= i < |line| ==> IsSpace(line[i])
  }

  predicate AllBlank(lines: seq<string>) {
    forall line :: line in lines ==> Blank(line)
  }

  predicate AllEmpty(lines: seq<string>) {
    forall line :: line in lines ==> line == ""
  }

  predicate Unbroken(lines: seq<string>) {
    forall line :: line in lines ==> NoNewline(line)
  }

  /** `s.split('\n')` */
  function Split(s: string): (lines: seq<string>)
    ensures |lines| >= 1
    ensures Unbroken(lines)
  {
    if s == [] then [""]
    else
      var rest := Split(s[1..]);
      assert rest[0] in rest && rest == [rest[0]] + rest[1..];
      if s[0] == '\n' then [""] + rest else [[s[0]] + rest[0]] + rest[1..]
  }

  /** `lines.join('\n')` */
  function Join(lines: seq<string>): string {
    if |lines| == 0 then ""
    else if |lines| == 1 then lines[0]
    else lines[0] + "\n" + Join(lines[1..])
  }

  lemma {:induction false} JoinSplit(s: string)
    ensures Join(Split(s)) == s
  {
    if s == [] {
    } else {
      JoinSplit(s[1..]);
      var rest := Split(s[1..]);
      if s[0] == '\n' {
        assert ([""] + rest)[1..] == rest;
      } else if |rest| > 1 {
        assert ([[s[0]] + rest[0]] + rest[1..])[1..] == rest[1..];
      }
    }
  }

  lemma {:induction false} SplitCons(line: string, rest: string)
    requires NoNewline(line)
    ensures Split(line + "\n" + rest) == [line] + Split(rest)
  {
    var s := line + "\n" + rest;
    if line == "" {
      assert s[1..] == rest;
    } else {
      SplitCons(line[1..], rest);
      assert s[1..] == line[1..] + "\n" + rest;
      assert [line[0]] + line[1..] == line;
    }
  }

  lemma {:induction false} SplitSingle(line: string)
    requires NoNewline(line)
    ensures Split(line) == [line]
  {
    if line != "" {
      SplitSingle(line[1..]);
      assert [line[0]] + line[1..] == line;
    }
  }

  lemma {:induction false} SplitJoin(lines: seq<string>)
    requires lines != [] && Unbroken(lines)
    ensures Split(Join(lines)) == lines
  {
    if |lines| == 1 {
      SplitSingle(lines[0]);
    } else {
      SplitJoin(lines[1..]);
      SplitCons(lines[0], Join(lines[1..]));
    }
  }

  /** What `while (lines.length > 0 && lines[0].trim() === '') lines.shift()` leaves. */
  function DropFront(lines: seq<string>): seq<string> {
    if lines != [] && Blank(lines[0]) then DropFront(lines[1..]) else lines
  }

  /** The same at the end, with `pop`. */
  function DropBack(lines: seq<string>): seq<string> {
    if lines != [] && Blank(lines[|lines| - 1]) then DropBack(lines[..|lines| - 1]) else lines
  }

  lemma {:induction false} DropFrontSpec(lines: seq<string>)
    ensures var r := DropFront(lines);
      && (forall line :: line in r ==> line in lines)
      && (r == [] <==> AllBlank(lines))
      && (AllBlank(r) ==> r == [])
      && (r != [] ==> !Blank(r[0]) && r[|r| - 1] == lines[|lines| - 1])
  {
    if lines != [] && Blank(lines[0]) {
      DropFrontSpec(lines[1..]);
      assert lines == [lines[0]] + lines[1..];
    } else if lines != [] {
      assert lines[0] in lines;
    }
  }

  lemma {:induction false} DropBackSpec(lines: seq<string>)
    ensures var r := DropBack(lines);
      && (forall line :: line in r ==> line in lines)
      && (r == [] <==> AllBlank(lines))
      && (AllBlank(r) ==> r == [])
      && (r != [] ==> !Blank(r[|r| - 1]) && r[0] == lines[0])
  {
    var n := |lines|;
    if lines != [] && Blank(lines[n - 1]) {
      DropBackSpec(lines[..n - 1]);
      assert lines == lines[..n - 1] + [lines[n - 1]];
    } else if lines != [] {
      assert lines[n - 1] in lines;
    }
  }

  /** Where the two trims cut. */
  lemma {:induction false} FrontCut(lines: seq<string>) returns (i: nat)
    ensures i <= |lines| && DropFront(lines) == lines[i..] && AllBlank(lines[..i]) && (i < |lines| ==> !Blank(lines[i]))
  {
    i := 0;
    if lines != [] && Blank(lines[0]) {
      var rest := lines[1..];
      var k := FrontCut(rest);
      i := k + 1;
      assert lines[i..] == rest[k..] && lines[..i] == [lines[0]] + rest[..k];
    }
  }

  lemma {:induction false} BackCut(lines: seq<string>) returns (j: nat)
    ensures j <= |lines| && DropBack(lines) == lines[..j] && AllBlank(lines[j..]) && (j > 0 ==> !Blank(lines[j - 1]))
  {
    j := |lines|;
    var n := |lines| - 1;
    if lines != [] && Blank(lines[n]) {
      var init := lines[..n];
      j := BackCut(init);
      assert lines[..j] == init[..j] && lines[j..] == init[j..] + [lines[n]];
    } else {
      assert lines[..j] == lines && lines[j..] == [];
    }
  }

  /** Runs of shift and pop as loops on a list variable. */
  method TrimFront(given: seq<string>) returns (lines: seq<string>)
    ensures lines == DropFront(given)
  {
    lines := given;
    while |lines| > 0 && Blank(lines[0])
      invariant DropFront(lines) == DropFront(given)
    {
      lines := lines[1..];
    }
  }

  method TrimBack(given: seq<string>) returns (lines: seq<string>)
    ensures lines == DropBack(given)
  {
    lines := given;
    while |lines| > 0 && Blank(lines[|lines| - 1])
      invariant DropBack(lines) == DropBack(given)
    {
      lines := lines[..|lines| - 1];
    }
  }
}
