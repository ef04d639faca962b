/** Comment removal on the bytes of a file: splitting into lines, computing and applying edits. */
module ShellBytes {
  import opened ShellLexer
  import opened ShellScan
  import opened ShellRemoval

  datatype SourceEdit = SourceEdit(start: nat, end: nat, blank: bool)

  // ---------------------------------------------------------------- lines

  /** The next line feed at or after a position, or the end. */
  function LineFeed(data: string, from: nat): (at: nat)
    requires from <= |data|
    ensures from <= at <= |data| && (at < |data| ==> data[at] == '\n')
    decreases |data| - from
  {
    if from == |data| || data[from] == '\n' then from else LineFeed(data, from + 1)
  }

  lemma {:induction false} NoFeedBefore(data: string, from: nat)
    requires from <= |data|
    ensures forall i :: from <= i < LineFeed(data, from) ==> data[i] != '\n'
    decreases |data| - from
  {
    if from < |data| && data[from] != '\n' { NoFeedBefore(data, from + 1); }
  }

  lemma {:induction false} FeedIs(data: string, from: nat, at: nat)
    requires from <= at <= |data| && (at < |data| ==> data[at] == '\n') && forall i :: from <= i < at ==> data[i] != '\n'
    ensures LineFeed(data, from) == at
    decreases at - from
  {
    if from < at { FeedIs(data, from + 1, at); }
  }

  /** Line content without one carriage return at its end. */
  function Text(raw: string): string {
    if raw != [] && raw[|raw| - 1] == '\r' then raw[..|raw| - 1] else raw
  }

  /** The line is cut out of the data between line feeds. */
  ghost predicate Cut(data: string, line: ShellLine) {
    && line.offset <= |data| && (line.offset == 0 || data[line.offset - 1] == '\n')
    && line.text == Text(data[line.offset..LineFeed(data, line.offset)])
  }

  ghost predicate Follows(data: string, line: ShellLine, next: ShellLine)
    requires line.offset <= |data|
  {
    LineFeed(data, line.offset) < |data| && next.offset == LineFeed(data, line.offset) + 1 && next.number == line.number + 1
  }

  /** The lines are those of the data, all of them and in order, numbered from 1. */
  ghost predicate Laid(data: string, lines: seq<ShellLine>) {
    && lines != [] && lines[0].offset == 0 && lines[0].number == 1
    && (forall i :: 0 <= i < |lines| ==> Cut(data, lines[i]))
    && (forall i :: 0 < i < |lines| ==> Follows(data, lines[i - 1], lines[i]))
    && LineFeed(data, lines[|lines| - 1].offset) == |data|
  }

  method SplitLines(data: string) returns (lines: seq<ShellLine>)
    ensures Laid(data, lines)
  {
    var offset, number := 0, 1;
    var feed := LineFeed(data, 0);
    lines := [ShellLine(Text(data[..feed]), 1, 0)];
    assert data[..feed] == data[0..feed];
    while feed < |data|
      invariant lines != [] && lines[0].offset == 0 && lines[0].number == 1
      invariant forall i :: 0 <= i < |lines| ==> Cut(data, lines[i])
      invariant forall i :: 0 < i < |lines| ==> Follows(data, lines[i - 1], lines[i])
      invariant feed == LineFeed(data, lines[|lines| - 1].offset) <= |data| && number == lines[|lines| - 1].number
      decreases |data| - feed
    {
      offset, number := feed + 1, number + 1;
      feed := LineFeed(data, offset);
      lines := lines + [ShellLine(Text(data[offset..feed]), number, offset)];
    }
  }

  method ScanShell(data: string) returns (findings: seq<Finding>, ghost lines: seq<ShellLine>)
    ensures Laid(data, lines) && findings == Scan(lines, [], lines)
  {
    var split := SplitLines(data);
    findings := ScanShellLines(split);
    lines := split;
  }

  lemma {:induction false} LaidApart(data: string, lines: seq<ShellLine>, i: nat, k: nat)
    requires Laid(data, lines) && i < k < |lines|
    ensures LineFeed(data, lines[i].offset) < lines[k].offset && lines[i].number < lines[k].number
    decreases k
  {
    assert Follows(data, lines[k - 1], lines[k]);
    if i < k - 1 { LaidApart(data, lines, i, k - 1); }
  }

  lemma {:induction false} LaidNumber(data: string, lines: seq<ShellLine>, i: nat)
    requires Laid(data, lines) && i < |lines|
    ensures lines[i].number == i + 1
  {
    if i > 0 {
      LaidNumber(data, lines, i - 1);
      assert Follows(data, lines[i - 1], lines[i]);
    }
  }

  lemma LaidInOrder(data: string, lines: seq<ShellLine>)
    requires Laid(data, lines)
    ensures InOrder(lines)
  {
    forall i, k | 0 <= i < k < |lines|
      ensures lines[i].number < lines[k].number && lines[i].offset + |lines[i].text| < lines[k].offset
    {
      LaidApart(data, lines, i, k);
      assert Cut(data, lines[i]);
    }
  }

  // ---------------------------------------------------------------- the bounds of a line

  function LineStart(data: string, cursor: nat): (start: nat)
    requires cursor <= |data|
    ensures start <= cursor && (start > 0 ==> data[start - 1] == '\n')
  {
    if cursor == 0 || data[cursor - 1] == '\n' then cursor else LineStart(data, cursor - 1)
  }

  function ContentEnd(data: string, start: nat): (end: nat)
    requires start <= |data|
    ensures start <= end <= LineFeed(data, start)
  {
    var feed := LineFeed(data, start);
    if feed < |data| && feed > start && data[feed - 1] == '\r' then feed - 1 else feed
  }

  function NextLine(data: string, start: nat): (next: nat)
    requires start <= |data|
    ensures start <= next <= |data| && LineFeed(data, start) <= next
  {
    if LineFeed(data, start) == |data| then |data| else LineFeed(data, start) + 1
  }

  lemma {:induction false} FeedAfter(data: string, cursor: nat)
    requires cursor <= |data|
    ensures LineFeed(data, LineStart(data, cursor)) == LineFeed(data, cursor)
  {
    if cursor > 0 && data[cursor - 1] != '\n' { FeedAfter(data, cursor - 1); }
  }

  /** The last line feed before the cursor is searched backwards, the next one forwards. */
  method LineBounds(data: string, cursor: nat) returns (lineStart: nat, contentEnd: nat, nextLine: nat)
    requires cursor <= |data|
    ensures lineStart == LineStart(data, cursor)
    ensures contentEnd == ContentEnd(data, lineStart) && nextLine == NextLine(data, lineStart)
    ensures cursor < |data| ==> cursor < nextLine
  {
    FeedAfter(data, cursor);
    lineStart := cursor;
    while lineStart > 0 && data[lineStart - 1] != '\n'
      invariant lineStart <= cursor && LineStart(data, lineStart) == LineStart(data, cursor)
    {
      lineStart := lineStart - 1;
    }
    var feed := lineStart;
    while feed < |data| && data[feed] != '\n'
      invariant lineStart <= feed <= |data| && LineFeed(data, feed) == LineFeed(data, lineStart)
    {
      feed := feed + 1;
    }
    if feed == |data| { return lineStart, |data|, |data|; }
    contentEnd := feed;
    if contentEnd > lineStart && data[contentEnd - 1] == '\r' { contentEnd := contentEnd - 1; }
    nextLine := feed + 1;
  }

  /** How many backslashes end at a position. */
  function Backslashes(data: string, index: int): nat
    requires index < |data|
    decreases index
  {
    if index >= 0 && data[index] == '\\' then 1 + Backslashes(data, index - 1) else 0
  }

  predicate Continues(data: string, lineStart: nat)
    requires lineStart <= |data|
  {
    Backslashes(data, lineStart - 2) % 2 == 1
  }

  method EndsWithLineContinuation(data: string, lineStart: nat) returns (r: bool)
    requires lineStart <= |data|
    ensures r == Continues(data, lineStart)
  {
    var backslashes, index := 0, lineStart - 2;
    while index >= 0 && data[index] == '\\'
      invariant index < |data| && backslashes + Backslashes(data, index) == Backslashes(data, lineStart - 2)
    {
      backslashes, index := backslashes + 1, index - 1;
    }
    r := backslashes % 2 == 1;
  }

  method OnlyWhitespace(data: string) returns (r: bool)
    ensures r == Blank(data)
  {
    for i := 0 to |data|
      invariant forall k :: 0 <= k < i ==> data[k] == ' ' || data[k] == '\t'
    {
      if data[i] != ' ' && data[i] != '\t' { return false; }
    }
    return true;
  }

  // ---------------------------------------------------------------- the edits of one finding

  /** The n-th finding is the only one that touches the range. */
  ghost predicate OnlyFinding(findings: seq<Finding>, n: int, start: nat, end: nat) {
    && 0 <= n < |findings| && start <= findings[n].start < findings[n].end <= end
    && (forall m :: 0 <= m < n ==> findings[m].end <= start)
    && (forall m :: n < m < |findings| ==> end <= findings[m].start)
  }

  method LineCommentsOnly(data: string, findings: seq<Finding>, start: nat, end: nat, ghost n: nat) returns (r: bool)
    requires start <= end <= |data|
    ensures OnlyFinding(findings, n, start, end) ==>
              (r <==> Blank(data[start..findings[n].start]) && Blank(data[findings[n].end..end]))
  {
    var cursor := start;
    for i := 0 to |findings|
      invariant start <= cursor < end || cursor == start == end
      invariant OnlyFinding(findings, n, start, end) ==>
                  if i <= n then cursor == start else cursor == findings[n].end && Blank(data[start..findings[n].start])
    {
      var item := findings[i];
      if item.end <= cursor { continue; }
      if item.start >= end { break; }
      if item.start > cursor {
        var blank := OnlyWhitespace(data[cursor..item.start]);
        if !blank { return false; }
      }
      cursor := if item.end > cursor then item.end else cursor;
      if cursor >= end { return true; }
    }
    r := OnlyWhitespace(data[cursor..end]);
  }

  /** The comment ends where the content of its line does. */
  predicate Removable(data: string, line: ShellLine)
    requires line.offset <= |data| && FirstComment(line.text) >= 0
  {
    && Blank(line.text[..FirstComment(line.text)])
    && line.offset + |line.text| == ContentEnd(data, line.offset)
    && !Continues(data, line.offset)
  }

  /** The single edit a commented line needs. */
  function LineEdit(data: string, line: ShellLine): SourceEdit
    requires line.offset <= |data| && FirstComment(line.text) >= 0
  {
    if Removable(data, line) then SourceEdit(line.offset, NextLine(data, line.offset), false)
    else SourceEdit(line.offset + FirstComment(line.text), line.offset + |line.text|, true)
  }

  /** A finding is of this line, and no other finding touches the line. */
  ghost predicate FindingOnLine(data: string, findings: seq<Finding>, n: int, line: ShellLine) {
    && 0 <= n < |findings| && Cut(data, line) && FirstComment(line.text) >= 0 && findings[n] == FindingOf(line)
    && OnlyFinding(findings, n, line.offset, ContentEnd(data, line.offset))
  }

  lemma {:induction false} LineStartWithin(data: string, start: nat, cursor: nat)
    requires start <= cursor <= |data| && LineStart(data, start) == start && forall i :: start <= i < cursor ==> data[i] != '\n'
    ensures LineStart(data, cursor) == start
  {
    if start < cursor { LineStartWithin(data, start, cursor - 1); }
  }

  predicate OneReturn(s: string) {
    s == "" || s == "\r"
  }

  /** The text of a line is what precedes its line feed, but for one carriage return. */
  lemma TextFits(data: string, line: ShellLine)
    requires Cut(data, line)
    ensures line.offset + |line.text| <= ContentEnd(data, line.offset) && line.text == data[line.offset..line.offset + |line.text|]
    ensures line.offset + |line.text| < ContentEnd(data, line.offset) ==> data[line.offset + |line.text|] == '\r'
    ensures OneReturn(data[line.offset + |line.text|..LineFeed(data, line.offset)])
    ensures '\n' !in line.text
  {
    var feed, end := LineFeed(data, line.offset), line.offset + |line.text|;
    var raw := data[line.offset..feed];
    NoFeedBefore(data, line.offset);
    if raw != [] && raw[|raw| - 1] == '\r' { assert data[end..feed] == "\r"; } else { assert data[end..feed] == ""; }
    assert forall i :: 0 <= i < |line.text| ==> line.text[i] == data[line.offset + i];
  }

  lemma CommentLine(data: string, findings: seq<Finding>, n: int, line: ShellLine)
    requires FindingOnLine(data, findings, n, line)
    ensures LineStart(data, findings[n].start) == line.offset && findings[n].end <= NextLine(data, line.offset)
    ensures findings[n].end <= ContentEnd(data, line.offset)
    ensures Blank(data[line.offset..findings[n].start]) && Blank(data[findings[n].end..ContentEnd(data, line.offset)])
            <==> Blank(line.text[..FirstComment(line.text)]) && line.offset + |line.text| == ContentEnd(data, line.offset)
  {
    var at := FirstComment(line.text);
    TextFits(data, line);
    LineStartWithin(data, line.offset, findings[n].start);
    assert line.text[..at] == data[line.offset..findings[n].start];
    var rest := data[findings[n].end..ContentEnd(data, line.offset)];
    assert rest != [] ==> rest[0] == '\r';
  }

  method RemovesLine(data: string, findings: seq<Finding>, lineStart: nat, contentEnd: nat, ghost n: nat, ghost line: ShellLine)
    returns (removes: bool)
    requires lineStart <= contentEnd <= |data|
    ensures FindingOnLine(data, findings, n, line) && lineStart == line.offset && contentEnd == ContentEnd(data, lineStart) ==>
              (removes <==> Removable(data, line))
  {
    var comments := LineCommentsOnly(data, findings, lineStart, contentEnd, n);
    var continues := EndsWithLineContinuation(data, lineStart);
    removes := comments && !continues;
    if FindingOnLine(data, findings, n, line) { CommentLine(data, findings, n, line); }
  }

  /** A finding on one line gets one edit, whichever finding and line that is. */
  method FindingEdits(data: string, findings: seq<Finding>, item: Finding, ghost n: nat, ghost line: ShellLine)
    returns (edits: seq<SourceEdit>)
    requires item.start <= item.end <= |data|
    ensures FindingOnLine(data, findings, n, line) && item == findings[n] ==> edits == [LineEdit(data, line)]
  {
    ghost var single := FindingOnLine(data, findings, n, line) && item == findings[n];
    if single { CommentLine(data, findings, n, line); }
    edits := [];
    var decidedLine: int, decidedRemoval := -1, false;
    var cursor := item.start;
    while cursor < item.end
      invariant cursor <= |data|
      invariant cursor == item.start ==> edits == [] && decidedLine == -1
      invariant single ==> cursor == item.start || (cursor >= item.end && edits == [LineEdit(data, line)])
      decreases item.end - cursor
    {
      var lineStart, contentEnd, nextLine := LineBounds(data, cursor);
      if lineStart != decidedLine {
        decidedLine := lineStart;
        decidedRemoval := RemovesLine(data, findings, lineStart, contentEnd, n, line);
      }
      if decidedRemoval {
        if edits == [] || edits[|edits| - 1].blank || edits[|edits| - 1].start != lineStart {
          edits := edits + [SourceEdit(lineStart, nextLine, false)];
        }
      } else {
        edits := edits + [SourceEdit(cursor, if contentEnd < item.end then contentEnd else item.end, true)];
      }
      cursor := nextLine;
    }
  }

  // ---------------------------------------------------------------- applying edits

  /** Edits lie within the data, in order and apart from each other. */
  ghost predicate Fits(data: string, edits: seq<SourceEdit>, position: nat)
    decreases |edits|
  {
    if edits == [] then position <= |data|
    else position <= edits[0].start <= edits[0].end <= |data| && Fits(data, edits[1..], edits[0].end)
  }

  function Replacement(edit: SourceEdit): string
    requires edit.start <= edit.end
  {
    if edit.blank then Spaces(edit.end - edit.start) else ""
  }

  function Apply(data: string, edits: seq<SourceEdit>, position: nat): string
    requires Fits(data, edits, position)
    decreases |edits|
  {
    if edits == [] then data[position..]
    else data[position..edits[0].start] + Replacement(edits[0]) + Apply(data, edits[1..], edits[0].end)
  }

  method ApplyEdits(data: string, edits: seq<SourceEdit>) returns (result: string)
    requires Fits(data, edits, 0)
    ensures result == Apply(data, edits, 0)
  {
    result := [];
    var position: nat := 0;
    ghost var all := Apply(data, edits, 0);
    assert edits[0..] == edits;
    for n := 0 to |edits|
      invariant position <= |data| && Fits(data, edits[n..], position)
      invariant result + Apply(data, edits[n..], position) == all
    {
      var edit := edits[n];
      assert edits[n..][0] == edit && edits[n..][1..] == edits[n + 1..];
      Reassociate(result, data[position..edit.start] + Replacement(edit), Apply(data, edits[n + 1..], edit.end));
      result := result + (data[position..edit.start] + Replacement(edit));
      position := edit.end;
    }
    result := result + data[position..];
  }

  // ---------------------------------------------------------------- edits, line by line

  predicate InBounds(data: string, line: ShellLine) {
    line.offset <= |data| && line.offset + |line.text| <= NextLine(data, line.offset)
  }

  /** What removal does to a line, given the findings of the whole file. */
  function EditKind(data: string, line: ShellLine, findings: seq<Finding>): Edit {
    if !InBounds(data, line) || !Forbidden(line) || FindingOf(line) !in findings then Keep
    else if Removable(data, line) then Drop
    else Overwrite
  }

  function LineEdits(data: string, line: ShellLine, kind: Edit): seq<SourceEdit>
    requires kind != Keep ==> line.offset <= |data| && FirstComment(line.text) >= 0
  {
    match kind
    case Keep => []
    case Drop => [SourceEdit(line.offset, NextLine(data, line.offset), false)]
    case Overwrite => [SourceEdit(line.offset + FirstComment(line.text), line.offset + |line.text|, true)]
  }

  /** The bytes of a line with its line feed, after its edit. */
  function Piece(data: string, line: ShellLine, kind: Edit): string
    requires InBounds(data, line) && (kind != Keep ==> FirstComment(line.text) >= 0)
  {
    var next := NextLine(data, line.offset);
    match kind
    case Keep => data[line.offset..next]
    case Drop => ""
    case Overwrite => BlankedOut(data, line.offset, line.offset + FirstComment(line.text), line.offset + |line.text|, next)
  }

  function BlankedOut(data: string, from: nat, start: nat, end: nat, next: nat): string
    requires from <= start <= end <= next <= |data|
  {
    data[from..start] + Spaces(end - start) + data[end..next]
  }

  /** The edits of the lines from the i-th on. */
  function EditsFrom(data: string, lines: seq<ShellLine>, findings: seq<Finding>, i: nat): seq<SourceEdit>
    decreases |lines| - i
  {
    if i >= |lines| then []
    else LineEdits(data, lines[i], EditKind(data, lines[i], findings)) + EditsFrom(data, lines, findings, i + 1)
  }

  /** The bytes from the i-th line on, after the edits. */
  function EditedFrom(data: string, lines: seq<ShellLine>, findings: seq<Finding>, i: nat): string
    requires forall k :: 0 <= k < |lines| ==> Lies(data, lines, k)
    decreases |lines| - i
  {
    if i >= |lines| then ""
    else
      assert Lies(data, lines, i);
      Piece(data, lines[i], EditKind(data, lines[i], findings)) + EditedFrom(data, lines, findings, i + 1)
  }

  // ---------------------------------------------------------------- applying the edits of the lines

  /** One edited stretch at the front of the edits that are still to apply. */
  ghost predicate Rewrites(data: string, edits: seq<SourceEdit>, position: nat, piece: string, more: seq<SourceEdit>, next: nat) {
    Fits(data, more, next) && Fits(data, edits, position) && Apply(data, edits, position) == piece + Apply(data, more, next)
  }

  lemma ApplyNothing(data: string, from: nat, next: nat, more: seq<SourceEdit>)
    requires from <= next && Fits(data, more, next)
    ensures Fits(data, more, from) && next <= |data| && Rewrites(data, [] + more, from, data[from..next], more, next)
  {
    FitsWithin(data, more, next);
    assert [] + more == more;
    if more != [] {
      var edit := more[0];
      FitsWithin(data, more[1..], edit.end);
      Regroup(data, from, next, edit.start, Replacement(edit), Apply(data, more[1..], edit.end));
    } else {
      assert data[from..] == data[from..next] + data[next..];
    }
  }

  lemma Regroup(data: string, a: nat, b: nat, c: nat, x: string, y: string)
    requires a <= b <= c <= |data|
    ensures data[a..c] + x + y == data[a..b] + (data[b..c] + x + y)
  {
    assert data[a..c] == data[a..b] + data[b..c];
    assert (data[a..b] + data[b..c]) + x + y == data[a..b] + (data[b..c] + x + y);
  }

  lemma ApplyDrop(data: string, from: nat, next: nat, more: seq<SourceEdit>)
    requires from <= next && Fits(data, more, next)
    ensures Rewrites(data, [SourceEdit(from, next, false)] + more, from, "", more, next)
  {
    EditFirst(data, SourceEdit(from, next, false), more, from);
    FitsWithin(data, more, next);
    assert data[from..from] + "" == "";
  }

  lemma ApplyOverwrite(data: string, from: nat, start: nat, end: nat, next: nat, more: seq<SourceEdit>)
    requires from <= start <= end <= next && Fits(data, more, next)
    ensures next <= |data|
    ensures Rewrites(data, [SourceEdit(start, end, true)] + more, from, BlankedOut(data, from, start, end, next), more, next)
  {
    FitsWithin(data, more, next);
    ApplyNothing(data, end, next, more);
    EditFirst(data, SourceEdit(start, end, true), more, from);
    assert [] + more == more;
    Reassociate(data[from..start] + Spaces(end - start), data[end..next], Apply(data, more, next));
  }

  lemma EditFirst(data: string, edit: SourceEdit, more: seq<SourceEdit>, position: nat)
    requires position <= edit.start <= edit.end && Fits(data, more, edit.end)
    ensures edit.end <= |data| && Fits(data, [edit] + more, position)
    ensures Apply(data, [edit] + more, position) == data[position..edit.start] + Replacement(edit) + Apply(data, more, edit.end)
  {
    FitsWithin(data, more, edit.end);
    assert ([edit] + more)[1..] == more;
  }

  lemma {:induction false} FitsWithin(data: string, edits: seq<SourceEdit>, position: nat)
    requires Fits(data, edits, position)
    ensures position <= |data|
  {
  }

  lemma ApplyLine(data: string, line: ShellLine, kind: Edit, more: seq<SourceEdit>)
    requires InBounds(data, line) && (kind != Keep ==> FirstComment(line.text) >= 0) && Fits(data, more, NextLine(data, line.offset))
    ensures Rewrites(data, LineEdits(data, line, kind) + more, line.offset, Piece(data, line, kind), more, NextLine(data, line.offset))
  {
    var next, edits, piece := NextLine(data, line.offset), LineEdits(data, line, kind), Piece(data, line, kind);
    if kind == Keep {
      assert edits == [] && piece == data[line.offset..next];
      ApplyNothing(data, line.offset, next, more);
    } else if kind == Drop {
      assert edits == [SourceEdit(line.offset, next, false)] && piece == "";
      ApplyDrop(data, line.offset, next, more);
    } else {
      var start, end := line.offset + FirstComment(line.text), line.offset + |line.text|;
      assert edits == [SourceEdit(start, end, true)] && piece == BlankedOut(data, line.offset, start, end, next);
      ApplyOverwrite(data, line.offset, start, end, next, more);
    }
  }

  /** Where the i-th line starts; the end of the data after the last one. */
  function OffsetOf(data: string, lines: seq<ShellLine>, i: nat): nat {
    if i < |lines| then lines[i].offset else |data|
  }

  ghost predicate Lies(data: string, lines: seq<ShellLine>, i: int) {
    0 <= i < |lines| && InBounds(data, lines[i]) && OffsetOf(data, lines, i + 1) == NextLine(data, lines[i].offset)
  }

  /** The edits of the lines from the i-th on, applied from there, give the edited lines. */
  ghost predicate Rewritten(data: string, lines: seq<ShellLine>, findings: seq<Finding>, i: nat)
    requires forall k :: 0 <= k < |lines| ==> Lies(data, lines, k)
  {
    && Fits(data, EditsFrom(data, lines, findings, i), OffsetOf(data, lines, i))
    && Apply(data, EditsFrom(data, lines, findings, i), OffsetOf(data, lines, i)) == EditedFrom(data, lines, findings, i)
  }

  /** Applying the edits rewrites the file line by line. */
  lemma {:induction false} EditsRewriteLines(data: string, lines: seq<ShellLine>, findings: seq<Finding>, i: nat)
    requires i <= |lines| && forall k :: 0 <= k < |lines| ==> Lies(data, lines, k)
    ensures Rewritten(data, lines, findings, i)
    decreases |lines| - i
  {
    if i < |lines| {
      EditsRewriteLines(data, lines, findings, i + 1);
      RewriteLine(data, lines, findings, i);
    } else {
      assert data[|data|..] == "";
    }
  }

  lemma RewriteLine(data: string, lines: seq<ShellLine>, findings: seq<Finding>, i: nat)
    requires i < |lines| && (forall k :: 0 <= k < |lines| ==> Lies(data, lines, k)) && Rewritten(data, lines, findings, i + 1)
    ensures Rewritten(data, lines, findings, i)
  {
    assert Lies(data, lines, i);
    var kind, more, rest := EditKind(data, lines[i], findings), EditsFrom(data, lines, findings, i + 1), EditedFrom(data, lines, findings, i + 1);
    assert EditsFrom(data, lines, findings, i) == LineEdits(data, lines[i], kind) + more;
    assert EditedFrom(data, lines, findings, i) == Piece(data, lines[i], kind) + rest;
    ApplyLine(data, lines[i], kind, more);
  }

  lemma LaidLies(data: string, lines: seq<ShellLine>, i: nat)
    requires Laid(data, lines) && i < |lines|
    ensures Cut(data, lines[i]) && Lies(data, lines, i)
  {
    assert Cut(data, lines[i]);
    TextFits(data, lines[i]);
    if i + 1 < |lines| { assert Follows(data, lines[i], lines[i + 1]); }
  }

  // ---------------------------------------------------------------- the text of an edited line

  /** The bytes of a line up to its line feed, after its edit. */
  function EditedRaw(data: string, line: ShellLine, kind: Edit): string
    requires line.offset + |line.text| <= |data| && (kind != Keep ==> FirstComment(line.text) >= 0)
  {
    match kind
    case Keep => line.text + Rest(data, line)
    case Drop => ""
    case Overwrite => Overwritten(line.text) + Rest(data, line)
  }

  /** What stands between the text of a line and its line feed. */
  function Rest(data: string, line: ShellLine): string
    requires line.offset + |line.text| <= |data|
  {
    data[line.offset + |line.text|..LineFeed(data, line.offset + |line.text|)]
  }

  lemma {:induction false} FeedLater(data: string, from: nat, mid: nat)
    requires from <= |data| && from <= mid <= LineFeed(data, from)
    ensures LineFeed(data, mid) == LineFeed(data, from)
    decreases mid - from
  {
    if from < mid { FeedLater(data, from + 1, mid); }
  }

  lemma RestIsReturn(data: string, line: ShellLine)
    requires Cut(data, line)
    ensures line.offset + |line.text| <= |data| && LineFeed(data, line.offset + |line.text|) == LineFeed(data, line.offset)
    ensures OneReturn(Rest(data, line)) && '\n' !in line.text
  {
    TextFits(data, line);
    RestUpTo(data, line, LineFeed(data, line.offset));
  }

  lemma RestUpTo(data: string, line: ShellLine, feed: nat)
    requires line.offset + |line.text| <= feed <= |data| && LineFeed(data, line.offset) == feed
    requires OneReturn(data[line.offset + |line.text|..feed])
    ensures LineFeed(data, line.offset + |line.text|) == feed && OneReturn(Rest(data, line))
  {
    FeedLater(data, line.offset, line.offset + |line.text|);
  }

  lemma OverwrittenText(text: string, rest: string)
    requires FirstComment(text) >= 0 && '\n' !in text && OneReturn(rest)
    ensures '\n' !in Overwritten(text) + rest && Text(Overwritten(text) + rest) == Overwritten(text)
  {
    var o := Overwritten(text);
    assert o[|o| - 1] == ' ' && '\n' !in o;
    if rest == "" { assert o + rest == o; } else { assert (o + rest)[..|o|] == o; }
  }

  /** The edited bytes hold one line, whose text is the edited text. */
  lemma EditedRawText(data: string, line: ShellLine, kind: Edit)
    requires Cut(data, line) && InBounds(data, line) && (kind != Keep ==> FirstComment(line.text) >= 0)
    ensures '\n' !in EditedRaw(data, line, kind) && Text(EditedRaw(data, line, kind)) == NewText(line, kind)
  {
    RestIsReturn(data, line);
    match kind
    case Keep => KeptText(data, line);
    case Drop =>
    case Overwrite => OverwrittenText(line.text, Rest(data, line));
  }

  lemma KeptText(data: string, line: ShellLine)
    requires Cut(data, line) && line.offset + |line.text| <= |data|
    ensures '\n' !in line.text + Rest(data, line) && Text(line.text + Rest(data, line)) == line.text
  {
    RestIsReturn(data, line);
    TextFits(data, line);
    assert line.text + Rest(data, line) == data[line.offset..LineFeed(data, line.offset)];
  }

  lemma PieceIsRaw(data: string, line: ShellLine, kind: Edit)
    requires Cut(data, line) && InBounds(data, line) && kind != Drop && (kind != Keep ==> FirstComment(line.text) >= 0)
    ensures Piece(data, line, kind) == EditedRaw(data, line, kind) + Fed(data, line)
  {
    RestIsReturn(data, line);
    TextFits(data, line);
    SplitRest(data, line.offset + |line.text|, LineFeed(data, line.offset));
    if kind == Keep { KeptPiece(data, line); } else { OverwrittenPiece(data, line); }
  }

  function Fed(data: string, line: ShellLine): string
    requires line.offset <= |data|
  {
    if LineFeed(data, line.offset) < |data| then "\n" else ""
  }

  lemma KeptPiece(data: string, line: ShellLine)
    requires InBounds(data, line) && line.text == data[line.offset..line.offset + |line.text|]
    requires data[line.offset + |line.text|..NextLine(data, line.offset)] == Rest(data, line) + Fed(data, line)
    ensures data[line.offset..NextLine(data, line.offset)] == (line.text + Rest(data, line)) + Fed(data, line)
  {
    var end, next := line.offset + |line.text|, NextLine(data, line.offset);
    assert data[line.offset..next] == data[line.offset..end] + data[end..next];
    Reassociate(line.text, Rest(data, line), Fed(data, line));
  }

  lemma OverwrittenPiece(data: string, line: ShellLine)
    requires InBounds(data, line) && line.text == data[line.offset..line.offset + |line.text|] && FirstComment(line.text) >= 0
    requires data[line.offset + |line.text|..NextLine(data, line.offset)] == Rest(data, line) + Fed(data, line)
    ensures Piece(data, line, Overwrite) == (Overwritten(line.text) + Rest(data, line)) + Fed(data, line)
  {
    assert line.text[..FirstComment(line.text)] == data[line.offset..line.offset + FirstComment(line.text)];
    Reassociate(Overwritten(line.text), Rest(data, line), Fed(data, line));
  }

  lemma SplitRest(data: string, end: nat, feed: nat)
    requires end <= feed <= |data| && (feed < |data| ==> data[feed] == '\n')
    ensures feed < |data| ==> data[end..feed + 1] == data[end..feed] + "\n"
    ensures feed == |data| ==> data[end..feed] == data[end..feed] + ""
  {
  }
}
