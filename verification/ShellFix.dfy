/** The whole of comment removal from a shell script, and what holds of its result. */
module ShellFix {
  import opened ShellLexer
  import opened ShellScan
  import opened ShellRemoval
  import opened ShellBytes

  /** The lines of the data and findings on them, one a line and in order. */
  ghost predicate Reported(data: string, lines: seq<ShellLine>, findings: seq<Finding>) {
    Laid(data, lines) && Orderly(findings, lines)
  }

  lemma ScanIsReported(data: string, lines: seq<ShellLine>)
    requires Laid(data, lines)
    ensures Reported(data, lines, Scan(lines, [], lines))
  {
    LaidInOrder(data, lines);
    assert lines[0..] == lines;
    FindingsInOrder(lines, [], lines);
  }

  // ---------------------------------------------------------------- each finding is on its line

  function LineOf(lines: seq<ShellLine>, f: Finding): ShellLine
    requires 1 <= f.line <= |lines|
  {
    lines[f.line - 1]
  }

  ghost predicate HasLine(data: string, lines: seq<ShellLine>, f: Finding) {
    && 1 <= f.line <= |lines| && Cut(data, LineOf(lines, f)) && Forbidden(LineOf(lines, f)) && f == FindingOf(LineOf(lines, f))
  }

  lemma FindingHasLine(data: string, lines: seq<ShellLine>, findings: seq<Finding>, n: nat)
    requires Reported(data, lines, findings) && n < |findings|
    ensures HasLine(data, lines, findings[n])
  {
    assert FoundIn(findings[n], lines);
    var i :| 0 <= i < |lines| && Forbidden(lines[i]) && findings[n] == FindingOf(lines[i]);
    LaidNumber(data, lines, i);
  }

  /** The line of a finding is touched by no other finding. */
  lemma FindingIsOnItsLine(data: string, lines: seq<ShellLine>, findings: seq<Finding>, n: nat)
    requires Reported(data, lines, findings) && n < |findings|
    ensures HasLine(data, lines, findings[n]) && FindingOnLine(data, findings, n, LineOf(lines, findings[n]))
    ensures findings[n].start <= findings[n].end <= |data|
  {
    FindingHasLine(data, lines, findings, n);
    var line := LineOf(lines, findings[n]);
    TextFits(data, line);
    forall m | 0 <= m < |findings| && m != n
      ensures if m < n then findings[m].end <= line.offset else ContentEnd(data, line.offset) <= findings[m].start
    {
      OthersElsewhere(data, lines, findings, n, m);
    }
  }

  lemma OthersElsewhere(data: string, lines: seq<ShellLine>, findings: seq<Finding>, n: nat, m: nat)
    requires Reported(data, lines, findings) && n < |findings| && m < |findings| && m != n && HasLine(data, lines, findings[n])
    ensures if m < n then findings[m].end <= LineOf(lines, findings[n]).offset
            else ContentEnd(data, LineOf(lines, findings[n]).offset) <= findings[m].start
  {
    FindingHasLine(data, lines, findings, m);
    if m < n {
      FindingsApart(data, lines, findings[m], findings[n]);
    } else {
      FindingsApart(data, lines, findings[n], findings[m]);
    }
  }

  lemma FindingsApart(data: string, lines: seq<ShellLine>, f: Finding, g: Finding)
    requires Laid(data, lines) && HasLine(data, lines, f) && HasLine(data, lines, g) && f.line < g.line
    ensures f.end <= LineOf(lines, g).offset && ContentEnd(data, LineOf(lines, f).offset) <= g.start
  {
    CommentedApart(data, lines, f.line - 1, g.line - 1);
  }

  lemma CommentedApart(data: string, lines: seq<ShellLine>, i: nat, k: nat)
    requires Laid(data, lines) && i < k < |lines| && FirstComment(lines[i].text) >= 0 && FirstComment(lines[k].text) >= 0
    ensures lines[i].offset <= |data| && FindingOf(lines[i]).end <= lines[k].offset
    ensures ContentEnd(data, lines[i].offset) <= FindingOf(lines[k]).start
  {
    assert Cut(data, lines[i]) && Cut(data, lines[k]);
    assert LineFeed(data, lines[i].offset) < lines[k].offset by { LaidApart(data, lines, i, k); }
    CutApart(data, lines[i], lines[k]);
  }

  lemma CutApart(data: string, a: ShellLine, b: ShellLine)
    requires Cut(data, a) && Cut(data, b) && LineFeed(data, a.offset) < b.offset && FirstComment(a.text) >= 0 && FirstComment(b.text) >= 0
    ensures FindingOf(a).end <= b.offset && ContentEnd(data, a.offset) <= FindingOf(b).start
  {
    TextFits(data, a);
  }

  // ---------------------------------------------------------------- the edits of all findings

  /** The findings from the k-th on are those of the lines from the i-th on. */
  ghost predicate Split(findings: seq<Finding>, k: nat, i: nat) {
    && k <= |findings|
    && (forall n :: 0 <= n < k ==> findings[n].line <= i)
    && (forall n :: k <= n < |findings| ==> i < findings[n].line)
  }

  lemma SplitNext(findings: seq<Finding>, k: nat, i: nat)
    requires Split(findings, k, i) && Separate(findings)
    ensures if k < |findings| && findings[k].line == i + 1 then Split(findings, k + 1, i + 1) else Split(findings, k, i + 1)
  {
    forall n | k < n < |findings| ensures findings[k].line < findings[n].line {}
  }

  lemma LineFlagged(data: string, lines: seq<ShellLine>, findings: seq<Finding>, k: nat, i: nat)
    requires Reported(data, lines, findings) && Split(findings, k, i) && i < |lines|
    ensures lines[i].offset <= |data|
    ensures if k < |findings| && findings[k].line == i + 1
            then Forbidden(lines[i]) && LineEdits(data, lines[i], EditKind(data, lines[i], findings)) == [LineEdit(data, lines[i])]
            else EditKind(data, lines[i], findings) == Keep
  {
    LaidLies(data, lines, i);
    if k < |findings| && findings[k].line == i + 1 {
      FindingHasLine(data, lines, findings, k);
      FlaggedEdit(data, lines[i], findings, k);
    } else if Forbidden(lines[i]) && FindingOf(lines[i]) in findings {
      FlaggedIsNext(data, lines, findings, k, i);
    }
  }

  lemma FlaggedEdit(data: string, line: ShellLine, findings: seq<Finding>, k: nat)
    requires InBounds(data, line) && k < |findings| && Forbidden(line) && findings[k] == FindingOf(line)
    ensures LineEdits(data, line, EditKind(data, line, findings)) == [LineEdit(data, line)]
  {
    assert findings[k] in findings;
  }

  lemma FlaggedIsNext(data: string, lines: seq<ShellLine>, findings: seq<Finding>, k: nat, i: nat)
    requires Reported(data, lines, findings) && Split(findings, k, i) && i < |lines|
    requires Forbidden(lines[i]) && FindingOf(lines[i]) in findings
    ensures k < |findings| && findings[k].line == i + 1
  {
    LaidNumber(data, lines, i);
    var n :| 0 <= n < |findings| && findings[n] == FindingOf(lines[i]);
    NextInSplit(findings, k, i, n);
  }

  lemma NextInSplit(findings: seq<Finding>, k: nat, i: nat, n: nat)
    requires Split(findings, k, i) && Separate(findings) && n < |findings| && findings[n].line == i + 1
    ensures k < |findings| && findings[k].line == i + 1
  {
  }

  /** Appending the edits of the findings one by one gives the edits of the lines. */
  method CollectEdits(data: string, findings: seq<Finding>, ghost lines: seq<ShellLine>) returns (edits: seq<SourceEdit>)
    requires Reported(data, lines, findings)
    ensures edits == EditsFrom(data, lines, findings, 0)
  {
    edits := [];
    ghost var i: nat := 0;
    assert Split(findings, 0, 0) by {
      forall n | 0 <= n < |findings| ensures 0 < findings[n].line { FindingHasLine(data, lines, findings, n); }
    }
    for n := 0 to |findings|
      invariant i <= |lines| && Split(findings, n, i)
      invariant edits + EditsFrom(data, lines, findings, i) == EditsFrom(data, lines, findings, 0)
    {
      FindingIsOnItsLine(data, lines, findings, n);
      var added := FindingEdits(data, findings, findings[n], n, LineOf(lines, findings[n]));
      EditsUpTo(data, lines, findings, n, i);
      Reassociate(edits, added, EditsFrom(data, lines, findings, findings[n].line));
      edits := edits + added;
      i := findings[n].line;
    }
    NoMoreEdits(data, lines, findings, i);
  }

  /** Up to the line of the next finding there are no other edits. */
  lemma {:induction false} EditsUpTo(data: string, lines: seq<ShellLine>, findings: seq<Finding>, n: nat, i: nat)
    requires Reported(data, lines, findings) && n < |findings| && Split(findings, n, i) && i <= |lines|
    ensures HasLine(data, lines, findings[n]) && Split(findings, n + 1, findings[n].line)
    ensures EditsFrom(data, lines, findings, i) ==
            [LineEdit(data, LineOf(lines, findings[n]))] + EditsFrom(data, lines, findings, findings[n].line)
    decreases |lines| - i
  {
    FindingHasLine(data, lines, findings, n);
    LineFlagged(data, lines, findings, n, i);
    SplitNext(findings, n, i);
    if findings[n].line != i + 1 {
      EditsUpTo(data, lines, findings, n, i + 1);
      assert EditsFrom(data, lines, findings, i) == [] + EditsFrom(data, lines, findings, i + 1);
    }
  }

  lemma {:induction false} NoMoreEdits(data: string, lines: seq<ShellLine>, findings: seq<Finding>, i: nat)
    requires Reported(data, lines, findings) && Split(findings, |findings|, i) && i <= |lines|
    ensures EditsFrom(data, lines, findings, i) == []
    decreases |lines| - i
  {
    if i < |lines| {
      LineFlagged(data, lines, findings, |findings|, i);
      SplitNext(findings, |findings|, i);
      NoMoreEdits(data, lines, findings, i + 1);
    }
  }

  ghost function Result(data: string, lines: seq<ShellLine>, findings: seq<Finding>): string
    requires Laid(data, lines)
  {
    forall k | 0 <= k < |lines| ensures Lies(data, lines, k) { LaidLies(data, lines, k); }
    EditedFrom(data, lines, findings, 0)
  }

  method RemoveFindings(data: string, findings: seq<Finding>, ghost lines: seq<ShellLine>) returns (result: string)
    requires Reported(data, lines, findings)
    ensures result == Result(data, lines, findings)
  {
    var edits := CollectEdits(data, findings, lines);
    forall k | 0 <= k < |lines| ensures Lies(data, lines, k) { LaidLies(data, lines, k); }
    EditsRewriteLines(data, lines, findings, 0);
    result := ApplyEdits(data, edits);
  }

  // ---------------------------------------------------------------- the lines of the result

  ghost function Edits(data: string, lines: seq<ShellLine>, findings: seq<Finding>): seq<Edit> {
    seq(|lines|, i requires 0 <= i < |lines| => EditKind(data, lines[i], findings))
  }

  lemma EditOfLine(data: string, lines: seq<ShellLine>, findings: seq<Finding>, i: nat)
    requires Laid(data, lines) && i < |lines|
    ensures Lies(data, lines, i) && Cut(data, lines[i])
    ensures EditOf(Edits(data, lines, findings), lines[i].number) == EditKind(data, lines[i], findings)
    ensures Sound(lines[i], EditKind(data, lines[i], findings))
  {
    LaidNumber(data, lines, i);
    LaidLies(data, lines, i);
  }

  lemma EditedOne(line: ShellLine, edits: seq<Edit>, e: ShellLine)
    requires EditedLine(line, EditOf(edits, line.number), e)
    ensures EditedAs([line], edits, [e])
  {
    assert [line][1..] == [] && [e][1..] == [];
  }

  lemma EditedCons(lines: seq<ShellLine>, edits: seq<Edit>, es: seq<ShellLine>)
    requires |lines| > 1 && es != [] && !EditOf(edits, lines[0].number).Drop?
    requires EditedLine(lines[0], EditOf(edits, lines[0].number), es[0]) && EditedAs(lines[1..], edits, es[1..])
    ensures EditedAs(lines, edits, es)
  {
  }

  lemma EditedSkip(lines: seq<ShellLine>, edits: seq<Edit>, es: seq<ShellLine>)
    requires |lines| > 1 && EditOf(edits, lines[0].number).Drop? && EditedAs(lines[1..], edits, es)
    ensures EditedAs(lines, edits, es)
  {
  }

  /** A line of the result that starts where the given bytes do. */
  ghost predicate Starts(result: string, offset: nat, raw: string, rest: string) {
    offset <= |result| && result[offset..] == raw + rest && '\n' !in raw && (rest == "" || rest[0] == '\n')
  }

  lemma LineStarting(result: string, e: ShellLine, raw: string, rest: string)
    requires Cut(result, e) && Starts(result, e.offset, raw, rest)
    ensures LineFeed(result, e.offset) == e.offset + |raw| && e.text == Text(raw)
  {
    var at := e.offset + |raw|;
    assert |result[e.offset..]| == |raw + rest|;
    assert forall i :: e.offset <= i < at ==> result[i] == result[e.offset..][i - e.offset] == raw[i - e.offset];
    assert at < |result| ==> result[at] == result[e.offset..][|raw|] == rest[0];
    FeedIs(result, e.offset, at);
    assert result[e.offset..at] == raw;
  }

  /** The j-th line of the result starts with the edited i-th line of the original. */
  ghost predicate InStep(data: string, lines: seq<ShellLine>, findings: seq<Finding>, i: nat, result: string, e: seq<ShellLine>, j: nat)
    requires forall k :: 0 <= k < |lines| ==> Lies(data, lines, k)
  {
    && i < |lines| && j < |e| && (i == 0 ==> j == 0) && e[j].offset <= |result|
    && result[e[j].offset..] == EditedFrom(data, lines, findings, i)
  }

  lemma StartsWithRaw(data: string, lines: seq<ShellLine>, findings: seq<Finding>, i: nat, result: string, e: seq<ShellLine>, j: nat)
    requires Laid(data, lines) && (forall k :: 0 <= k < |lines| ==> Lies(data, lines, k)) && Laid(result, e)
    requires InStep(data, lines, findings, i, result, e, j)
    requires EditKind(data, lines[i], findings) != Drop || i + 1 == |lines|
    ensures var kind := EditKind(data, lines[i], findings);
            && Cut(data, lines[i]) && Sound(lines[i], kind) && lines[i].offset + |lines[i].text| <= |data|
            && EditedLine(lines[i], kind, e[j])
            && Starts(result, e[j].offset, EditedRaw(data, lines[i], kind),
                      if i + 1 == |lines| then "" else "\n" + EditedFrom(data, lines, findings, i + 1))
  {
    var kind := EditKind(data, lines[i], findings);
    EditOfLine(data, lines, findings, i);
    EditedRawText(data, lines[i], kind);
    RawThenRest(data, lines, findings, i);
    var rest := if i + 1 == |lines| then "" else "\n" + EditedFrom(data, lines, findings, i + 1);
    LineStarting(result, e[j], EditedRaw(data, lines[i], kind), rest);
    LaidNumber(data, lines, i);
    LaidNumber(result, e, j);
  }

  lemma RawThenRest(data: string, lines: seq<ShellLine>, findings: seq<Finding>, i: nat)
    requires Laid(data, lines) && (forall k :: 0 <= k < |lines| ==> Lies(data, lines, k)) && i < |lines|
    requires Cut(data, lines[i]) && InBounds(data, lines[i]) && lines[i].offset + |lines[i].text| <= |data|
    requires EditKind(data, lines[i], findings) != Drop || i + 1 == |lines|
    ensures EditedFrom(data, lines, findings, i) ==
            EditedRaw(data, lines[i], EditKind(data, lines[i], findings))
            + if i + 1 == |lines| then "" else "\n" + EditedFrom(data, lines, findings, i + 1)
  {
    var kind := EditKind(data, lines[i], findings);
    if kind != Drop { PieceIsRaw(data, lines[i], kind); }
    if i + 1 < |lines| {
      assert Follows(data, lines[i], lines[i + 1]);
      Reassociate(EditedRaw(data, lines[i], kind), "\n", EditedFrom(data, lines, findings, i + 1));
    }
  }

  /** The lines of the result are the edited lines of the original. */
  lemma {:induction false} ResultLines(data: string, lines: seq<ShellLine>, findings: seq<Finding>, i: nat, result: string, e: seq<ShellLine>, j: nat)
    requires Laid(data, lines) && (forall k :: 0 <= k < |lines| ==> Lies(data, lines, k)) && Laid(result, e)
    requires InStep(data, lines, findings, i, result, e, j)
    ensures EditedAs(lines[i..], Edits(data, lines, findings), e[j..])
    decreases |lines| - i
  {
    var kind, edits := EditKind(data, lines[i], findings), Edits(data, lines, findings);
    EditOfLine(data, lines, findings, i);
    assert lines[i..][0] == lines[i] && lines[i..][1..] == lines[i + 1..];
    if kind == Drop && i + 1 < |lines| {
      assert EditedFrom(data, lines, findings, i) == "" + EditedFrom(data, lines, findings, i + 1);
      ResultLines(data, lines, findings, i + 1, result, e, j);
      EditedSkip(lines[i..], edits, e[j..]);
    } else {
      StartsWithRaw(data, lines, findings, i, result, e, j);
      assert e[j..][0] == e[j] && e[j..][1..] == e[j + 1..];
      if i + 1 == |lines| {
        LastOfResult(result, e, j, EditedRaw(data, lines[i], kind));
        EditedOne(lines[i], edits, e[j]);
        assert lines[i..] == [lines[i]] && e[j..] == [e[j]];
      } else {
        NextOfResult(result, e, j, EditedRaw(data, lines[i], kind), EditedFrom(data, lines, findings, i + 1));
        ResultLines(data, lines, findings, i + 1, result, e, j + 1);
        EditedCons(lines[i..], edits, e[j..]);
      }
    }
  }

  lemma LastOfResult(result: string, e: seq<ShellLine>, j: nat, raw: string)
    requires Laid(result, e) && j < |e| && e[j].offset <= |result| && Starts(result, e[j].offset, raw, "")
    ensures j + 1 == |e|
  {
    LineStarting(result, e[j], raw, "");
    assert |result[e[j].offset..]| == |raw|;
    assert j + 1 < |e| ==> Follows(result, e[j], e[j + 1]);
  }

  lemma NextOfResult(result: string, e: seq<ShellLine>, j: nat, raw: string, rest: string)
    requires Laid(result, e) && j < |e| && e[j].offset <= |result| && Starts(result, e[j].offset, raw, "\n" + rest)
    ensures j + 1 < |e| && e[j + 1].offset <= |result| && result[e[j + 1].offset..] == rest
  {
    LineStarting(result, e[j], raw, "\n" + rest);
    assert |result[e[j].offset..]| == |raw| + 1 + |rest|;
    assert j + 1 < |e|;
    assert Follows(result, e[j], e[j + 1]);
    TailOf(result, e[j].offset, |raw| + 1, raw + ("\n" + rest), rest);
  }

  lemma TailOf(s: string, from: nat, skip: nat, all: string, rest: string)
    requires from + skip <= |s| && s[from..] == all && skip <= |all| && all[skip..] == rest
    ensures s[from + skip..] == rest
  {
    assert s[from..][skip..] == s[from + skip..];
  }

  // ---------------------------------------------------------------- the theorem

  /** Removal edits exactly the reported lines. */
  lemma ResultIsEdited(data: string, lines: seq<ShellLine>, findings: seq<Finding>, e: seq<ShellLine>)
    requires Reported(data, lines, findings) && Laid(Result(data, lines, findings), e)
    ensures EditedAs(lines, Edits(data, lines, findings), e)
    ensures SoundEdits(lines, Edits(data, lines, findings)) && Covered(findings, Edits(data, lines, findings))
    ensures forall i :: 0 <= i < |lines| && Edits(data, lines, findings)[i] != Keep ==> FindingOf(lines[i]) in findings
  {
    var result := Result(data, lines, findings);
    forall k | 0 <= k < |lines| ensures Lies(data, lines, k) { LaidLies(data, lines, k); }
    assert result[0..] == result;
    ResultLines(data, lines, findings, 0, result, e, 0);
    assert lines[0..] == lines && e[0..] == e;
    forall i | 0 <= i < |lines| ensures Sound(lines[i], EditOf(Edits(data, lines, findings), lines[i].number)) {
      EditOfLine(data, lines, findings, i);
    }
    forall n | 0 <= n < |findings| ensures EditOf(Edits(data, lines, findings), findings[n].line) != Keep {
      FindingIsEdited(data, lines, findings, n);
    }
  }

  lemma FindingIsEdited(data: string, lines: seq<ShellLine>, findings: seq<Finding>, n: nat)
    requires Reported(data, lines, findings) && n < |findings|
    ensures EditOf(Edits(data, lines, findings), findings[n].line) != Keep
  {
    FindingHasLine(data, lines, findings, n);
    EditOfLine(data, lines, findings, findings[n].line - 1);
    assert findings[n] in findings;
  }

  /** Scanning the result of removing what a scan reported reports nothing. */
  lemma RemovalIsFixpoint(data: string, lines: seq<ShellLine>, e: seq<ShellLine>)
    requires Laid(data, lines) && Laid(Result(data, lines, Scan(lines, [], lines)), e)
    ensures Scan(e, [], e) == []
  {
    var findings := Scan(lines, [], lines);
    ScanIsReported(data, lines);
    ResultIsEdited(data, lines, findings, e);
    Rescan(lines, [], lines, Edits(data, lines, findings), e, e);
  }

  /** With nothing found, nothing is edited. */
  lemma NothingEdited(data: string, lines: seq<ShellLine>)
    requires Laid(data, lines)
    ensures Result(data, lines, []) == data
  {
    forall k | 0 <= k < |lines| ensures Lies(data, lines, k) { LaidLies(data, lines, k); }
    assert Split([], 0, 0);
    ScanNothing(data, lines);
    NoMoreEdits(data, lines, [], 0);
    EditsRewriteLines(data, lines, [], 0);
    assert data[0..] == data;
  }

  lemma ScanNothing(data: string, lines: seq<ShellLine>)
    requires Laid(data, lines)
    ensures Reported(data, lines, [])
  {
  }

  /** Removing the comments of a script: a second scan finds nothing, a second removal changes nothing. */
  method RemoveComments(data: string) returns (result: string, findings: seq<Finding>, ghost lines: seq<ShellLine>)
    ensures Laid(data, lines) && findings == Scan(lines, [], lines) && Separate(findings)
    ensures result == Result(data, lines, findings)
    ensures forall e :: Laid(result, e) ==> EditedAs(lines, Edits(data, lines, findings), e)
    ensures forall e :: Laid(result, e) ==> Scan(e, [], e) == [] && Result(result, e, Scan(e, [], e)) == result
    ensures findings == [] ==> result == data
  {
    findings, lines := ScanShell(data);
    ScanIsReported(data, lines);
    result := RemoveFindings(data, findings, lines);
    forall e | Laid(result, e)
      ensures EditedAs(lines, Edits(data, lines, findings), e) && Scan(e, [], e) == [] && Result(result, e, Scan(e, [], e)) == result
    {
      ResultIsEdited(data, lines, findings, e);
      RemovalIsFixpoint(data, lines, e);
      NothingEdited(result, e);
    }
    NothingEdited(data, lines);
  }
}
